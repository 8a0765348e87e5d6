/** Expressions as trees, printed with as few parentheses as the grammar allows: the evaluator gives
    the printed text the value of the tree, and leaves the variables as the tree does
    (ipc/bash-4.2/expr.c). */
module ExprTrees {
  import opened Common
  import opened Arithmetic
  import opened Numerals
  import opened Expr
  import ExprMachine

  datatype Step = Incr | Decr

  datatype Tree =
    | Lit(text: string)
    | Paren(arg: Tree)
    | Var(x: string)
    | Pre(step: Step, x: string)
    | Post(x: string, step: Step)
    | Un(uop: UnOp, arg: Tree)
    | Bin(op: BinOp, left: Tree, right: Tree)
    | Test(cond: Tree, yes: Tree, no: Tree)
    | Set(x: string, e: Tree)
    | Update(x: string, op: BinOp, e: Tree)
    | Seq(first: Tree, second: Tree)

  // ---------- Meaning ----------

  /** The value of a decimal numeral. */
  function NumeralValue(text: string): int {
    if text != "" && text[0] == '-' then -LiteralValue(text[1..]) else LiteralValue(text)
  }

  function LiteralValue(text: string): int {
    match Strlong(text) case None => 0 case Some(v) => v
  }

  /** The variables of a tree, and what some of them may hold: the printed text of another tree. */
  datatype Held = Held(names: set<string>, trees: map<string, Tree>)

  /** The value of a variable whose value is evaluated at depth `d`: unset and empty ones count as 0, the
      text of a tree is evaluated one level down, and nothing is below the last level. */
  function Lookup(env: Env, x: string, h: Held, d: nat): Option<int>
    requires d <= MAX_DEPTH
    decreases MAX_DEPTH - d, 0
  {
    if x !in env || env[x] == "" then Some(0)
    else if d == MAX_DEPTH then None
    else if x in h.trees && env[x] == Print(h.trees[x], 0) then ValueOf(Run(h.trees[x], env, false, h, d + 1))
    else Some(NumeralValue(env[x]))
  }

  /** A value and the variables afterwards, or a failure and the variables then. */
  type Effect = Res<(int, Env)>

  function ValueOf(r: Effect): Option<int> {
    match r case Err(_) => None case Ok((v, _)) => Some(v)
  }

  function EnvAfter(r: Effect): Env {
    match r case Err(env) => env case Ok((_, env)) => env
  }

  function Store(env: Env, x: string, v: int, on: bool): Env {
    if on then env[x := Itos(v)] else env
  }

  function Delta(step: Step): int {
    match step case Incr => 1 case Decr => -1
  }

  /** The value of a tree at depth `d` and the variables afterwards, from left to right. There is a value
      only if every part has one, the untaken parts included; but they assign nothing, nor does anything
      where assignments are not `on`. A failure leaves what was assigned before it. */
  function Run(e: Tree, env: Env, on: bool, h: Held, d: nat): Effect
    requires d <= MAX_DEPTH
    decreases MAX_DEPTH - d, 1, e
  {
    match e
    case Lit(text) => Fetch(Strlong(text), env)
    case Paren(a) => Run(a, env, on, h, d)
    case Var(x) => Fetch(Lookup(env, x, h, d), env)
    case Pre(step, x) =>
      (match Lookup(env, x, h, d)
       case None => Err(env)
       case Some(v) => Ok((v + Delta(step), Store(env, x, v + Delta(step), on))))
    case Post(x, step) =>
      (match Lookup(env, x, h, d)
       case None => Err(env)
       case Some(v) => Ok((v, Store(env, x, v + Delta(step), on))))
    case Un(op, a) => Signed(op, Run(a, env, on, h, d))
    case Bin(op, l, r) =>
      (match Run(l, env, on, h, d)
       case Err(env1) => Err(env1)
       case Ok((a, env1)) => Combine(op, a, Run(r, env1, on && !Skips(op, a), h, d)))
    case Test(c, a, b) =>
      (match Run(c, env, on, h, d)
       case Err(env1) => Err(env1)
       case Ok((v, env1)) =>
         match Run(a, env1, on && v != 0, h, d)
         case Err(env2) => Err(env2)
         case Ok((x, env2)) => Choose(v, x, Run(b, env2, on && v == 0, h, d)))
    case Set(x, a) => Assigned(x, Run(a, env, on, h, d), on)
    case Update(x, op, a) =>
      (match Lookup(env, x, h, d)
       case None => Err(env)
       case Some(v) => Assigned(x, Combine(op, v, Run(a, env, on, h, d)), on))
    case Seq(l, r) =>
      (match Run(l, env, on, h, d) case Err(env1) => Err(env1) case Ok((_, env1)) => Run(r, env1, on, h, d))
  }

  function Fetch(v: Option<int>, env: Env): Effect {
    match v case None => Err(env) case Some(n) => Ok((n, env))
  }

  /** What an assignment does, given what its right side does. */
  function Assigned(x: string, r: Effect, on: bool): Effect {
    match r case Err(env) => Err(env) case Ok((v, env)) => Ok((v, Store(env, x, v, on)))
  }

  /** What a unary operation does, given what its operand does. */
  function Signed(op: UnOp, r: Effect): Effect {
    match r case Err(env) => Err(env) case Ok((v, env)) => Ok((Unary(op, v), env))
  }

  /** The result of an operation from its left value and what its right operand does. */
  function Combine(op: BinOp, a: int, r: Effect): Effect {
    match r case Err(env) => Err(env) case Ok((b, env)) => Fetch(Binary(op, a, b), env)
  }

  /** The result of a conditional from its first arm and what its second arm does. */
  function Choose(v: int, x: int, r: Effect): Effect {
    match r case Err(env) => Err(env) case Ok((y, env)) => Ok((if v != 0 then x else y, env))
  }

  // ---------- Names ----------

  predicate Letter(c: char) { 'a' <= c <= 'z' || 'A' <= c <= 'Z' || c == '_' }

  /** A letter or an underscore, then letters, underscores and digits. */
  predicate Identifier(x: string) {
    x != "" && Letter(x[0]) && forall i :: 0 <= i < |x| ==> Letter(x[i]) || '0' <= x[i] <= '9'
  }

  /** The text of a number, in whatever base it is written. */
  predicate IsNumber(text: string) {
    && text != "" && '0' <= text[0] <= '9'
    && forall i :: 0 <= i < |text| ==> Letter(text[i]) || '0' <= text[i] <= '9' || text[i] == '#' || text[i] == '@'
  }

  predicate HasAssignment(op: BinOp) {
    op in {Mul, Div, Mod, Plus, Minus, Lsh, Rsh, Band, Bxor, Bor}
  }

  /** All variables of `e` are among the names and can be written, and there is an `op=` where one is used. */
  predicate Legal(e: Tree, h: Held) {
    match e
    case Lit(text) => IsNumber(text)
    case Paren(a) => Legal(a, h)
    case Var(x) => x in h.names && Identifier(x)
    case Pre(_, x) => x in h.names && Identifier(x)
    case Post(x, _) => x in h.names && Identifier(x)
    case Un(_, a) => Legal(a, h)
    case Bin(_, l, r) => Legal(l, h) && Legal(r, h)
    case Test(c, a, b) => Legal(c, h) && Legal(a, h) && Legal(b, h)
    case Set(x, a) => x in h.names && Identifier(x) && Legal(a, h)
    case Update(x, op, a) => x in h.names && Identifier(x) && HasAssignment(op) && Legal(a, h)
    case Seq(l, r) => Legal(l, h) && Legal(r, h)
  }

  ghost predicate IsNumeral(text: string) { exists n: int :: text == Itos(n) }

  /** Nothing in `e` assigns. */
  predicate Inert(e: Tree) {
    match e
    case Lit(_) => true
    case Paren(a) => Inert(a)
    case Var(_) => true
    case Un(_, a) => Inert(a)
    case Bin(_, l, r) => Inert(l) && Inert(r)
    case Test(c, a, b) => Inert(c) && Inert(a) && Inert(b)
    case Seq(l, r) => Inert(l) && Inert(r)
    case _ => false
  }

  /** The named variables are unset, empty, or hold a decimal numeral or the text of their tree, which
      assigns nothing. */
  ghost predicate Holds(env: Env, h: Held) {
    && (forall x :: x in h.trees ==> Legal(h.trees[x], h) && Inert(h.trees[x]))
    && forall x :: x in h.names && x in env && env[x] != "" ==>
         IsNumeral(env[x]) || (x in h.trees && env[x] == Print(h.trees[x], 0))
  }

  /** That stays so, and nothing is assigned where assignments are not `on`. */
  lemma {:induction false} RunHolds(e: Tree, env: Env, on: bool, h: Held, d: nat)
    requires d <= MAX_DEPTH && Holds(env, h)
    ensures Holds(EnvAfter(Run(e, env, on, h, d)), h)
    ensures !on ==> EnvAfter(Run(e, env, on, h, d)) == env
    decreases e
  {
    hide Print, Legal, Lookup, Binary;
    match e
    case Lit(_) =>
    case Paren(a) => RunHolds(a, env, on, h, d);
    case Var(_) =>
    case Pre(_, _) =>
    case Post(_, _) =>
    case Un(_, a) => RunHolds(a, env, on, h, d);
    case Bin(op, l, r) =>
      RunHolds(l, env, on, h, d);
      var a := Run(l, env, on, h, d);
      if a.Ok? { RunHolds(r, a.value.1, on && !Skips(op, a.value.0), h, d); }
    case Test(c, a, b) =>
      RunHolds(c, env, on, h, d);
      var v := Run(c, env, on, h, d);
      if v.Ok? {
        RunHolds(a, v.value.1, on && v.value.0 != 0, h, d);
        RunHolds(b, EnvAfter(Run(a, v.value.1, on && v.value.0 != 0, h, d)), on && v.value.0 == 0, h, d);
      }
    case Set(_, a) => RunHolds(a, env, on, h, d);
    case Update(_, _, a) => RunHolds(a, env, on, h, d);
    case Seq(l, r) =>
      RunHolds(l, env, on, h, d);
      RunHolds(r, EnvAfter(Run(l, env, on, h, d)), on, h, d);
  }

  /** A tree that assigns nothing does the same whether assignments are on or not. */
  lemma {:induction false} InertRuns(e: Tree, env: Env, on: bool, h: Held, d: nat)
    requires d <= MAX_DEPTH && Inert(e)
    ensures Run(e, env, on, h, d) == Run(e, env, false, h, d)
    ensures EnvAfter(Run(e, env, on, h, d)) == env
    decreases e
  {
    hide Lookup, Binary;
    match e
    case Lit(_) =>
    case Paren(a) => InertRuns(a, env, on, h, d);
    case Var(_) =>
    case Un(_, a) => InertRuns(a, env, on, h, d);
    case Bin(op, l, r) =>
      InertRuns(l, env, on, h, d);
      var a := Run(l, env, on, h, d);
      if a.Ok? { InertRuns(r, env, on && !Skips(op, a.value.0), h, d); }
    case Test(c, a, b) =>
      InertRuns(c, env, on, h, d);
      var v := Run(c, env, on, h, d);
      if v.Ok? {
        InertRuns(a, env, on && v.value.0 != 0, h, d);
        InertRuns(b, env, on && v.value.0 == 0, h, d);
      }
    case Seq(l, r) =>
      InertRuns(l, env, on, h, d);
      InertRuns(r, env, on, h, d);
  }

  lemma ItosValue(n: int)
    ensures Itos(n) != "" && NumeralValue(Itos(n)) == n
  {
    if n < 0 {
      StrlongDigits(-n);
      assert Itos(n)[1..] == Digits(-n);
    } else {
      StrlongDigits(n);
    }
  }

  // ---------- Printing ----------

  /** 0 comma, 1 assignment, 2 conditional, 3 to 12 the left-associative operators, 13 power, 14 unary,
      15 the rest. */
  function Prec(e: Tree): (p: nat)
    ensures p <= 15
  {
    match e
    case Lit(_) => 15
    case Paren(_) => 15
    case Var(_) => 15
    case Pre(_, _) => 15
    case Post(_, _) => 15
    case Un(_, _) => 14
    case Bin(op, _, _) => Level(op)
    case Test(_, _, _) => 2
    case Set(_, _) => 1
    case Update(_, _, _) => 1
    case Seq(_, _) => 0
  }

  function OpText(op: BinOp): (s: string)
    ensures s != "" && |s| <= 2
  {
    match op
    case Lor => "||" case Land => "&&" case Bor => "|" case Bxor => "^" case Band => "&"
    case EqEq => "==" case Neq => "!=" case Leq => "<=" case Geq => ">=" case Lt => "<" case Gt => ">"
    case Lsh => "<<" case Rsh => ">>" case Plus => "+" case Minus => "-"
    case Mul => "*" case Div => "/" case Mod => "%" case Power => "**"
  }

  function UnText(op: UnOp): string {
    match op case Not => "!" case BNot => "~" case Neg => "-" case Pos => "+"
  }

  function StepText(step: Step): string {
    match step case Incr => "++" case Decr => "--"
  }

  /** A blank keeps a plus or minus apart from the same sign behind it. */
  function Gap(op: string, next: string): string {
    if (op == "+" || op == "-") && next != "" && next[0] == op[0] then " " else ""
  }

  /** A tree where the grammar expects level `k`: in parentheses exactly if its own level is lower. */
  function Print(e: Tree, k: nat): string
    decreases e, 1
  {
    if Prec(e) < k then "(" + (Bare(e) + ")") else Bare(e)
  }

  function Bare(e: Tree): string
    decreases e, 0
  {
    match e
    case Lit(text) => text
    case Paren(a) => "(" + (Bare(a) + ")")
    case Var(x) => x
    case Pre(step, x) => StepText(step) + x
    case Post(x, step) => x + StepText(step)
    case Un(op, a) => UnText(op) + (Gap(UnText(op), Print(a, 14)) + Print(a, 14))
    case Bin(op, l, r) => Print(l, LeftLevel(op)) + Then(Op(op), Print(r, RightLevel(op)))
    case Test(c, a, b) => Print(c, 3) + ("?" + (Print(a, 0) + (":" + Print(b, 2))))
    case Set(x, a) => x + ("=" + Print(a, 1))
    case Update(x, op, a) => x + ((OpText(op) + "=") + Print(a, 1))
    case Seq(l, r) => Print(l, 0) + ("," + Print(r, 1))
  }

  /** `**` groups to the right, all others to the left. */
  function LeftLevel(op: BinOp): nat { if op == Power then 14 else Level(op) }

  function RightLevel(op: BinOp): nat { if op == Power then 13 else Level(op) + 1 }

  /** The tokens that can follow an operand. */
  function Core(t: Tok): string {
    match t
    case RPar => ")" case Col => ":" case Comma => "," case Ques => "?"
    case Op(op) => OpText(op)
    case _ => ""
  }

  function GapAfter(t: Tok, w: string): string {
    if t.Op? then Gap(OpText(t.op), w) else ""
  }

  /** A token with `w` behind it. */
  function Then(t: Tok, w: string): string {
    Core(t) + (GapAfter(t, w) + w)
  }

  predicate Starter(c: char) {
    IsDigit(c) || VarStart(c) || c == '(' || c == '-' || c == '+' || c == '!' || c == '~'
  }

  /** Text that starts an operand. */
  predicate Fair(w: string) { w != "" && Starter(w[0]) }

  /** Text that does not start with a blank. */
  predicate Tight(w: string) { w == "" || !White(w[0]) }

  lemma {:induction false} PrintFair(e: Tree, k: nat, h: Held)
    requires Legal(e, h)
    ensures Fair(Print(e, k)) && Tight(Print(e, k))
  {
    match e
    case Bin(op, l, r) => PrintFair(l, LeftLevel(op), h);
    case Test(c, a, b) => PrintFair(c, 3, h);
    case Seq(l, r) => PrintFair(l, 0, h);
    case _ =>
  }

  // ---------- Reading tokens ----------

  /** Where the next token starts. */
  function Start(s: State): nat
    requires Good(s)
  {
    SkipWhite(s.text, s.tp)
  }

  /** What is still unread, but for blanks, is `w`. */
  ghost predicate Ahead(s: State, w: string) {
    Good(s) && s.text[SkipWhite(s.text, s.tp)..] == w
  }

  lemma AtText(s: State, v: string, w: string, k: nat)
    requires Ahead(s, v + w) && k < |v|
    ensures Start(s) + k < |s.text| && s.text[Start(s) + k] == v[k] && At(s.text, Start(s) + k) == v[k]
  {
  }

  lemma AtRest(s: State, v: string, w: string)
    requires Ahead(s, v + w)
    ensures |s.text| == Start(s) + |v| + |w|
    ensures At(s.text, Start(s) + |v|) == if w == "" then NUL else w[0]
  {
  }

  /** Behind a token and the blank that may follow it. */
  lemma MovedOn(s: State, core: string, gap: string, w: string, s1: State)
    requires Ahead(s, core + (gap + w)) && (gap == "" || gap == " ") && Tight(w)
    requires s1.text == s.text && s1.tp == Start(s) + |core|
    ensures Ahead(s1, w)
  {
    var text, i := s.text, Start(s) + |core|;
    assert text[i..] == text[Start(s)..][|core|..] == gap + w;
    assert forall k :: 0 <= k < |gap + w| ==> text[i + k] == (gap + w)[k];
    if gap == " " {
      assert SkipWhite(text, i) == SkipWhite(text, i + 1);
      assert text[i + 1..] == w;
    } else {
      assert gap + w == w;
    }
  }

  predicate Follows(t: Tok, w: string) {
    match t
    case Eof => w == ""
    case RPar => Tight(w)
    case Col => Tight(w)
    case Comma => Tight(w)
    case Ques => Tight(w)
    case Op(_) => Fair(w)
    case _ => false
  }

  /** The token at hand is `t`, `w` is what comes next, and nothing else changed but what tokens say. */
  ghost predicate Took(s: State, s1: State, t: Tok, w: string) {
    && s1 == s.(last := s.cur, cur := t, tp := s1.tp, assignop := s1.assignop, tokval := s1.tokval)
    && (t != OpAssign ==> s1.assignop == s.assignop) && Ahead(s1, w)
  }

  lemma FollowTight(t: Tok, w: string)
    requires Follows(t, w)
    ensures Tight(w)
  {
    if t.Op? { assert Starter(w[0]); }
  }

  lemma CoreShape(t: Tok, w: string)
    requires Follows(t, w) && t != Eof
    ensures Core(t) != "" && |Core(t)| <= 2 && !NumChar(Core(t)[0]) && Core(t)[0] != '[' && !White(Core(t)[0])
  {
  }

  lemma FollowShape(t: Tok, w: string)
    requires Follows(t, w)
    ensures Tight(w) && Tight(Then(t, w))
    ensures Then(t, w) != "" ==> !NumChar(Then(t, w)[0]) && Then(t, w)[0] != '['
    ensures t != Eof ==> Core(t) != "" && |Core(t)| <= 2 && !VarStart(Core(t)[0]) && !IsDigit(Core(t)[0])
    ensures t == Eof ==> Then(t, w) == ""
    ensures Then(t, w) == Core(t) + (GapAfter(t, w) + w) && (GapAfter(t, w) == "" || GapAfter(t, w) == " ")
    ensures GapAfter(t, w) + w == "" || (GapAfter(t, w) + w)[0] == if GapAfter(t, w) != "" then ' ' else w[0]
  {
    hide Starter;
    FollowTight(t, w);
    if t != Eof {
      CoreShape(t, w);
      assert Then(t, w)[0] == Core(t)[0];
    }
  }

  /** What comes after the characters of a token. */
  predicate Behind(t: Tok, w: string, c: char) {
    c == if GapAfter(t, w) != "" then ' ' else if w == "" then NUL else w[0]
  }

  lemma OneCharOp(text: string, i: nat, t: Tok, w: string, varBefore: bool)
    requires t != Eof && Follows(t, w) && i < |text| && |Core(t)| == 1
    requires text[i] == Core(t)[0] && Behind(t, w, At(text, i + 1))
    ensures ReadOp(text, i, varBefore).Some?
    ensures ReadOp(text, i, varBefore).value.0 == t && ReadOp(text, i, varBefore).value.1 == 1
  {
    hide SkipWhite, White;
  }

  lemma TwoCharOp(text: string, i: nat, t: Tok, w: string, varBefore: bool)
    requires Follows(t, w) && i < |text| && |Core(t)| == 2
    requires text[i] == Core(t)[0] && At(text, i + 1) == Core(t)[1] && Behind(t, w, At(text, i + 2))
    ensures ReadOp(text, i, varBefore).Some?
    ensures ReadOp(text, i, varBefore).value.0 == t && ReadOp(text, i, varBefore).value.1 == 2
  {
    hide SkipWhite, White;
  }

  /** A token that `OperatorRead` recognises. */
  lemma TookOperator(s: State, t: Tok, core: string, gap: string, w: string, d: nat) returns (s1: State)
    requires d <= MAX_DEPTH && core != "" && (gap == "" || gap == " ") && Tight(w) && Ahead(s, core + (gap + w))
    requires !VarStart(core[0]) && !IsDigit(core[0])
    requires ReadOp(s.text, Start(s), s.cur == Str).Some?
    requires ReadOp(s.text, Start(s), s.cur == Str).value.0 == t
    requires ReadOp(s.text, Start(s), s.cur == Str).value.1 == |core|
    ensures ReadTok(s, d) == Ok(s1) && Took(s, s1, t, w) && s1.tokval == s.tokval
    ensures t == OpAssign ==> s1.assignop == ReadOp(s.text, Start(s), s.cur == Str).value.2
  {
    hide ReadOp, SkipWhite, VarStart, White, QuietFrom, QuietAt, QuietEnv;
    AtText(s, core, gap + w, 0);
    s1 := OperatorRead(s, Start(s)).value;
    MovedOn(s, core, gap, w, s1);
  }

  /** The characters of a token are recognised whatever comes before. */
  lemma FollowRead(s: State, t: Tok, w: string)
    requires t != Eof && Follows(t, w) && Ahead(s, Core(t) + (GapAfter(t, w) + w)) && Core(t) != "" && |Core(t)| <= 2
    requires GapAfter(t, w) + w == "" || (GapAfter(t, w) + w)[0] == if GapAfter(t, w) != "" then ' ' else w[0]
    ensures ReadOp(s.text, Start(s), s.cur == Str).Some?
    ensures ReadOp(s.text, Start(s), s.cur == Str).value.0 == t
    ensures ReadOp(s.text, Start(s), s.cur == Str).value.1 == |Core(t)|
  {
    hide ReadOp, SkipWhite, Starter, White, VarStart, Core, GapAfter, OpText, Tight, IsDigit;
    hide Follows, QuietFrom, QuietAt, QuietEnv;
    var i, gap := Start(s), GapAfter(t, w);
    AtText(s, Core(t), gap + w, 0);
    AtRest(s, Core(t), gap + w);
    if |Core(t)| == 1 {
      OneCharOp(s.text, i, t, w, s.cur == Str);
    } else {
      AtText(s, Core(t), gap + w, 1);
      TwoCharOp(s.text, i, t, w, s.cur == Str);
    }
  }

  lemma ReadFollow(s: State, t: Tok, w: string, d: nat) returns (s1: State)
    requires d <= MAX_DEPTH && Follows(t, w) && Ahead(s, Then(t, w))
    ensures ReadTok(s, d) == Ok(s1) && Took(s, s1, t, w) && s1.tokval == s.tokval
  {
    hide ReadOp, SkipWhite, Starter, White, VarStart, Core, Then, GapAfter, OpText, Tight, IsDigit;
    hide Follows, QuietFrom, QuietAt, QuietEnv;
    FollowShape(t, w);
    FollowAssigns(t, w);
    if t == Eof {
      s1 := s.(last := s.cur, cur := Eof, tp := |s.text|);
    } else {
      FollowRead(s, t, w);
      s1 := TookOperator(s, t, Core(t), GapAfter(t, w), w, d);
    }
  }

  lemma FollowAssigns(t: Tok, w: string)
    requires Follows(t, w)
    ensures t !in {Eq, OpAssign, PostInc, PostDec, Str}
  {
  }

  lemma {:induction false} SkipNumber(text: string, i: nat, j: nat)
    requires i <= j <= |text| && (forall k :: i <= k < j ==> NumChar(text[k]))
    requires !NumChar(At(text, j))
    ensures SkipNum(text, i) == j
    decreases j - i
  {
    if i < j { SkipNumber(text, i + 1, j); }
  }

  lemma {:induction false} SkipName(text: string, i: nat, j: nat)
    requires i <= j <= |text| && (forall k :: i <= k < j ==> VarChar(text[k]))
    requires !VarChar(At(text, j))
    ensures SkipVar(text, i) == j
    decreases j - i
  {
    if i < j { SkipName(text, i + 1, j); }
  }

  /** A part of the text ahead. */
  lemma PartAhead(s: State, v: string, w: string)
    requires Ahead(s, v + w)
    ensures Start(s) + |v| <= |s.text| && s.text[Start(s)..Start(s) + |v|] == v
  {
    assert s.text[Start(s)..][..|v|] == v;
  }

  lemma NumberChars(text: string)
    requires IsNumber(text)
    ensures text != "" && IsDigit(text[0]) && !VarStart(text[0]) && forall i :: 0 <= i < |text| ==> NumChar(text[i])
  {
  }

  lemma NothingBehind()
    ensures !NumChar(NUL)
  {
  }

  /** A number is read to its end; it may be an error. */
  lemma ReadLit(s: State, text: string, w: string, d: nat) returns (s1: State)
    requires d <= MAX_DEPTH && IsNumber(text) && Ahead(s, text + w) && Tight(w) && (w != "" ==> !NumChar(w[0]))
    ensures match Strlong(text)
      case None => ReadTok(s, d) == Err(s.env)
      case Some(v) => ReadTok(s, d) == Ok(s1) && Took(s, s1, Num, w) && s1.tokval == v
  {
    hide SkipWhite, White, Strlong, IsNumber, NumChar, VarStart, IsDigit, Tight;
    hide QuietFrom, QuietAt, QuietEnv, Quiet;
    NumberChars(text);
    var i, j := Start(s), Start(s) + |text|;
    assert text + w == text + ("" + w);
    PartAhead(s, text, w);
    AtRest(s, text, w);
    forall k | i <= k < j ensures NumChar(s.text[k]) { AtText(s, text, w, k - i); }
    AtText(s, text, w, 0);
    SkipNumber(s.text, i, j) by { NothingBehind(); }
    var r := NumberRead(s, i);
    s1 := if r.Ok? then r.value else s;
    if r.Ok? { MovedOn(s, text, "", w, s1); }
  }

  lemma {:induction false} DigitsNumber(n: nat)
    ensures IsNumber(Digits(n)) && Strlong(Digits(n)) == Some(n)
  {
    StrlongDigits(n);
  }

  lemma ParenRead(text: string, i: nat, varBefore: bool)
    requires i < |text| && text[i] == '('
    ensures ReadOp(text, i, varBefore) == Some((LPar, 1, Plus))
  {
  }

  lemma ReadParen(s: State, w: string, d: nat) returns (s1: State)
    requires d <= MAX_DEPTH && Tight(w) && Ahead(s, "(" + w)
    ensures ReadTok(s, d) == Ok(s1) && Took(s, s1, LPar, w)
  {
    hide SkipWhite, White, QuietFrom, QuietAt, QuietEnv;
    assert "(" + w == "(" + ("" + w);
    AtText(s, "(", w, 0);
    ParenRead(s.text, Start(s), s.cur == Str);
    s1 := TookOperator(s, LPar, "(", "", w, d);
  }

  /** The token of a unary operator. */
  function UnTok(op: UnOp): Tok {
    match op case Not => Bang case BNot => Tilde case Neg => Op(Minus) case Pos => Op(Plus)
  }

  lemma UnOpRead(text: string, i: nat, op: UnOp, w: string, varBefore: bool)
    requires i < |text| && text[i] == UnText(op)[0]
    requires w != "" && Starter(w[0])
    requires At(text, i + 1) == if Gap(UnText(op), w) != "" then ' ' else w[0]
    ensures UnaryOp(UnTok(op)) == Some(op) && UnTok(op) != OpAssign
    ensures |UnText(op)| == 1 && !VarStart(UnText(op)[0]) && !IsDigit(UnText(op)[0])
    ensures ReadOp(text, i, varBefore).Some?
    ensures ReadOp(text, i, varBefore).value.0 == UnTok(op) && ReadOp(text, i, varBefore).value.1 == 1
  {
    hide SkipWhite, QuietFrom, QuietAt, QuietEnv;
  }

  lemma ReadUn(s: State, op: UnOp, w: string, d: nat) returns (s1: State)
    requires d <= MAX_DEPTH && Fair(w) && Tight(w) && Ahead(s, UnText(op) + (Gap(UnText(op), w) + w))
    ensures ReadTok(s, d) == Ok(s1) && Took(s, s1, UnTok(op), w) && UnaryOp(UnTok(op)) == Some(op)
  {
    hide SkipWhite, White, ReadOp, VarStart, Starter, UnTok, IsDigit, QuietFrom, QuietAt, QuietEnv;
    var gap := Gap(UnText(op), w);
    AtText(s, UnText(op), gap + w, 0);
    AtRest(s, UnText(op), gap + w);
    UnOpRead(s.text, Start(s), op, w, s.cur == Str);
    s1 := TookOperator(s, UnTok(op), UnText(op), gap, w, d);
  }

  /** `++` or `--` before a variable, unless a variable comes before. */
  lemma ReadStep(s: State, step: Step, w: string, d: nat) returns (s1: State)
    requires d <= MAX_DEPTH && s.cur != Str && w != "" && VarStart(w[0]) && Ahead(s, StepText(step) + w)
    ensures ReadTok(s, d) == Ok(s1)
    ensures Took(s, s1, PreTok(step), w)
  {
    var i := Start(s);
    var t := PreTok(step);
    assert StepText(step) + w == StepText(step) + ("" + w);
    AtText(s, StepText(step), w, 0);
    AtText(s, StepText(step), w, 1);
    AtRest(s, StepText(step), w);
    assert SkipWhite(s.text, i + 2) == i + 2;
    s1 := TookOperator(s, t, StepText(step), "", w, d);
  }

  /** `++` or `--` behind a variable. */
  lemma ReadPost(s: State, step: Step, w: string, d: nat) returns (s1: State)
    requires d <= MAX_DEPTH && s.cur == Str && Tight(w) && Ahead(s, StepText(step) + w)
    ensures ReadTok(s, d) == Ok(s1) && s1.tokval == s.tokval
    ensures Took(s, s1, PostTok(step), w)
  {
    hide SkipWhite, White, QuietFrom, QuietAt, QuietEnv;
    var t := PostTok(step);
    assert StepText(step) + w == StepText(step) + ("" + w);
    AtText(s, StepText(step), w, 0);
    AtText(s, StepText(step), w, 1);
    s1 := TookOperator(s, t, StepText(step), "", w, d);
  }

  lemma ReadEq(s: State, w: string, d: nat) returns (s1: State)
    requires d <= MAX_DEPTH && Fair(w) && Tight(w) && Ahead(s, "=" + w)
    ensures ReadTok(s, d) == Ok(s1) && Took(s, s1, Eq, w)
  {
    hide SkipWhite, White, QuietFrom, QuietAt, QuietEnv;
    assert "=" + w == "=" + ("" + w);
    AtText(s, "=", w, 0);
    AtRest(s, "=", w);
    s1 := TookOperator(s, Eq, "=", "", w, d);
  }

  lemma UpdateRead(text: string, i: nat, op: BinOp, varBefore: bool)
    requires HasAssignment(op) && i < |text| && text[i] == OpText(op)[0]
    requires if |OpText(op)| == 1 then At(text, i + 1) == '='
             else At(text, i + 1) == OpText(op)[1] && At(text, i + 2) == '='
    ensures !VarStart(OpText(op)[0]) && !IsDigit(OpText(op)[0])
    ensures ReadOp(text, i, varBefore) == Some((OpAssign, |OpText(op)| + 1, op))
  {
    hide SkipWhite, QuietFrom, QuietAt, QuietEnv;
  }

  lemma ReadUpdate(s: State, op: BinOp, w: string, d: nat) returns (s1: State)
    requires d <= MAX_DEPTH && HasAssignment(op) && Fair(w) && Tight(w) && Ahead(s, (OpText(op) + "=") + w)
    ensures ReadTok(s, d) == Ok(s1) && Took(s, s1, OpAssign, w) && s1.assignop == op
  {
    hide SkipWhite, White, ReadOp, VarStart, QuietFrom, QuietAt, QuietEnv;
    var core := OpText(op) + "=";
    assert core + w == core + ("" + w);
    AtText(s, core, w, 0);
    AtText(s, core, w, 1);
    if |core| == 3 { AtText(s, core, w, 2); }
    UpdateRead(s.text, Start(s), op, s.cur == Str);
    s1 := TookOperator(s, OpAssign, core, "", w, d);
  }

  // ---------- Reading variables ----------

  /** Behind a variable there is neither more of a name nor a subscript. */
  predicate EndsName(w: string) {
    Tight(w) && (w != "" ==> !VarChar(w[0]) && w[0] != '[')
  }

  /** The state in which the token behind the variable `x` is looked at. */
  function Peeking(s: State, x: string): State
    requires Good(s)
  {
    s.(tokstr := x, tp := Start(s) + |x|, noeval := 1, cur := Str)
  }

  /** The variable `x` has been read. */
  ghost predicate TookVar(s: State, s1: State, x: string, w: string) {
    && s1 == s.(last := s.cur, cur := Str, tokstr := x, tp := s1.tp, assignop := s1.assignop, tokval := s1.tokval)
    && Ahead(s1, w)
  }

  lemma {:induction false} NameRead(s: State, x: string, w: string, d: nat)
    requires d <= MAX_DEPTH && Identifier(x) && EndsName(w) && Ahead(s, x + w)
    ensures Start(s) + |x| <= |s.text| && s.tp < Start(s) + |x|
    ensures ReadTok(s, d) == VariableRead(s, x, Start(s) + |x|, d)
    ensures Ahead(Peeking(s, x), w)
  {
    hide SkipWhite, White, VariableRead, QuietFrom, QuietAt, QuietEnv;
    var i, j := Start(s), Start(s) + |x|;
    assert x + w == x + ("" + w);
    PartAhead(s, x, w);
    AtRest(s, x, w);
    forall k | i <= k < j ensures VarChar(s.text[k]) { AtText(s, x, w, k - i); }
    AtText(s, x, w, 0);
    SkipName(s.text, i, j);
    MovedOn(s, x, "", w, Peeking(s, x));
  }

  // ---------- The levels of the grammar ----------

  /** The parsing function of each level. */
  function Parse(k: nat, s: State, d: nat): Res<Val>
    requires Good(s) && d <= MAX_DEPTH && k <= 15
  {
    if k == 0 then ExpComma(s, d)
    else if k == 1 then ExpAssign(s, d)
    else if k == 2 then ExpCond(s, d)
    else if k <= 12 then ExpBin(k, s, d)
    else if k == 13 then ExpPower(s, d)
    else if k == 14 then Exp1(s, d)
    else Exp0(s, d)
  }

  /** What that function does once it has read an operand of value `v`. */
  function Rest(k: nat, v: int, s: State, d: nat): Res<Val>
    requires Good(s) && d <= MAX_DEPTH && k <= 15
  {
    if k == 0 then CommaLoop(v, s, d)
    else if k == 2 then CondRest(v, s, d)
    else if 3 <= k <= 12 then BinLoop(k, v, s, d)
    else if k == 13 then PowerLoop(v, s, d)
    else Ok((v, s))
  }

  function TokLevel(t: Tok): int {
    match t
    case Comma => 0
    case Ques => 2
    case Op(op) => Level(op)
    case _ => -1
  }

  /** The highest level of a token that can follow an operand of level `k`: conditionals and powers
      group to the right. */
  function Limit(k: nat): int { if k == 2 then 1 else if k == 13 then 12 else k }

  lemma RestStops(k: nat, v: int, s: State, d: nat)
    requires Good(s) && d <= MAX_DEPTH && k <= 15 && TokLevel(s.cur) != k
    ensures Rest(k, v, s, d) == Ok((v, s))
  {
    hide ReadTok, QuietFrom, QuietAt, QuietEnv, Quiet;
  }

  /** One level up. */
  lemma StepUp(k: nat, s: State, d: nat)
    requires Good(s) && d <= MAX_DEPTH && k < 15
    requires k == 14 ==> UnaryOp(s.cur).None?
    ensures Parse(k + 1, s, d).Err? ==> Parse(k, s, d) == Parse(k + 1, s, d)
    ensures Parse(k + 1, s, d).Ok? && (k == 1 ==> !Assigning(Parse(2, s, d).value.1.cur)) ==>
              Parse(k, s, d) == Rest(k, Parse(k + 1, s, d).value.0, Parse(k + 1, s, d).value.1, d)
  {
    if 3 <= k <= 12 {
      assert Parse(k + 1, s, d) == Operand(k, s, d);
    } else if k == 1 && Parse(2, s, d).Ok? {
      assert Parse(1, s, d) == AssignRest(Parse(2, s, d).value.0, Parse(2, s, d).value.1, d);
    } else if k == 2 {
    } else if k == 13 {
    } else if k == 0 {
    }
  }

  /** From level `j` up to level `k`, past the levels whose operators do not follow. */
  lemma {:induction false} Climb(k: nat, j: nat, s: State, r: Effect, s1: State, d: nat)
    requires Good(s) && Good(s1) && d <= MAX_DEPTH && k <= j <= 15
    requires TokLevel(s1.cur) <= k && (k <= 1 ==> !Assigning(s1.cur)) && (j == 15 ==> UnaryOp(s.cur).None?)
    requires Parse(j, s, d) == Outcome(j, r, s1, d)
    ensures Parse(k, s, d) == Outcome(k, r, s1, d)
    decreases j - k
  {
    hide Parse, Rest, QuietFrom, QuietAt, QuietEnv;
    if k < j {
      if r.Ok? { RestStops(j, r.value.0, s1, d); }
      StepUp(j - 1, s, d);
      Climb(k, j - 1, s, r, s1, d);
    }
  }

  // ---------- The value of a variable ----------

  /** A whole text that is one operand. */
  lemma {:induction false} TextValue(text: string, env: Env, noeval: nat, op: BinOp, d: nat, s: State,
      k: nat, v: int, s1: State)
    requires d < MAX_DEPTH && text != "" && !White(text[0]) && 13 <= k <= 15
    requires ReadTok(State(text, 0, Eof, Eof, op, "", 0, noeval, env), d + 1) == Ok(s) && Good(s) && Good(s1)
    requires k == 15 ==> UnaryOp(s.cur).None?
    requires Parse(k, s, d + 1) == Ok((v, s1)) && s1.cur == Eof && s1.env == env && s1.assignop == op
    ensures SubExpr(text, env, noeval, op, d) == Ok((v, env, op))
  {
    hide ReadTok, QuietFrom, QuietAt, QuietEnv;
    RestStops(k, v, s1, d + 1);
    Climb(0, k, s, Ok((v, s1.env)), s1, d + 1);
    RestStops(0, v, s1, d + 1);
    assert ExpComma(s, d + 1) == Parse(0, s, d + 1);
    assert SkipWhite(text, 0) == 0;
  }

  /** At the start of a text. */
  lemma AtStart(text: string, env: Env, noeval: nat, op: BinOp)
    requires Tight(text)
    ensures Ahead(State(text, 0, Eof, Eof, op, "", 0, noeval, env), text)
  {
    assert SkipWhite(text, 0) == 0;
    assert text[0..] == text;
  }

  /** A numeral that is all that is left. */
  lemma LastLit(s: State, n: nat, d: nat) returns (s1: State, s2: State)
    requires d <= MAX_DEPTH && Ahead(s, Digits(n))
    ensures ReadTok(s, d) == Ok(s1) && s1.cur == Num && Good(s1)
    ensures Exp0(s1, d) == Ok((n, s2)) && s2.cur == Eof && s2.env == s.env && s2.assignop == s.assignop && Good(s2)
  {
    hide ReadTok, SkipWhite, Digits, QuietFrom, QuietAt, QuietEnv, Quiet, Ahead, Then;
    assert Digits(n) == Digits(n) + "";
    FollowShape(Eof, "");
    DigitsNumber(n);
    s1 := ReadLit(s, Digits(n), "", d);
    s2 := ReadFollow(s1, Eof, "", d);
  }

  lemma {:induction false} LiteralEval(n: nat, env: Env, noeval: nat, op: BinOp, d: nat)
    requires d < MAX_DEPTH
    ensures SubExpr(Digits(n), env, noeval, op, d) == Ok((n, env, op))
  {
    hide ReadTok, SubExpr, Exp0, SkipWhite, Ahead, QuietFrom, QuietAt, QuietEnv;
    AtStart(Digits(n), env, noeval, op);
    var s1, s2 := LastLit(State(Digits(n), 0, Eof, Eof, op, "", 0, noeval, env), n, d + 1);
    TextValue(Digits(n), env, noeval, op, d, s1, 15, n, s2);
  }

  lemma ReadSign(s: State, n: nat, d: nat) returns (s1: State)
    requires d <= MAX_DEPTH && s.cur != Str && Ahead(s, "-" + Digits(n))
    ensures ReadTok(s, d) == Ok(s1) && Took(s, s1, Op(Minus), Digits(n))
  {
    hide SkipWhite, Digits, QuietFrom, QuietAt, QuietEnv;
    assert "-" + Digits(n) == "-" + ("" + Digits(n));
    AtText(s, "-", Digits(n), 0);
    AtRest(s, "-", Digits(n));
    s1 := TookOperator(s, Op(Minus), "-", "", Digits(n), d);
  }

  lemma {:induction false} MinusStarts(n: nat)
    ensures "-" + Digits(n) != "" && !White(("-" + Digits(n))[0]) && Tight("-" + Digits(n))
  {
  }

  lemma {:induction false} NegativeParse(s: State, s1: State, n: int, s2: State, d: nat)
    requires Good(s) && d <= MAX_DEPTH && s.cur == Op(Minus) && ReadTok(s, d) == Ok(s1) && Good(s1) && s1.cur == Num
    requires Exp0(s1, d) == Ok((n, s2))
    ensures Parse(14, s, d) == Ok((-n, s2))
  {
    hide ReadTok, Exp0, QuietFrom, QuietAt, QuietEnv, Quiet;
    assert Exp1(s1, d) == Exp0(s1, d);
    assert Exp1(s, d) == Ok((Unary(Neg, n), s2));
  }

  /** A minus sign and a numeral that are all that is left. */
  lemma LastNegative(s: State, n: int, d: nat) returns (s1: State, s2: State)
    requires d <= MAX_DEPTH && n >= 0 && s.cur != Str && Ahead(s, "-" + Digits(n))
    ensures ReadTok(s, d) == Ok(s1) && Good(s1)
    ensures Parse(14, s1, d) == Ok((-n, s2)) && s2.cur == Eof && s2.env == s.env && s2.assignop == s.assignop
    ensures Good(s2)
  {
    hide ReadTok, Exp0, Parse, SkipWhite, Ahead, Digits, QuietFrom, QuietAt, QuietEnv;
    s1 := ReadSign(s, n, d);
    var q;
    q, s2 := LastLit(s1, n, d);
    NegativeParse(s1, q, n, s2, d);
  }

  lemma {:induction false} NegativeEval(n: int, env: Env, noeval: nat, op: BinOp, d: nat)
    requires d < MAX_DEPTH && n >= 0
    ensures SubExpr("-" + Digits(n), env, noeval, op, d) == Ok((-n, env, op))
  {
    hide ReadTok, SubExpr, SkipWhite, Ahead, Digits, Parse, White, Starter, QuietFrom, QuietAt, QuietEnv;
    var text := "-" + Digits(n);
    MinusStarts(n);
    AtStart(text, env, noeval, op);
    var s1, s2 := LastNegative(State(text, 0, Eof, Eof, op, "", 0, noeval, env), n, d + 1);
    TextValue(text, env, noeval, op, d, s1, 14, -n, s2);
  }

  /** What evaluating a text came to: a value or a failure, and the variables afterwards. */
  ghost predicate Came(got: Res<(int, Env, BinOp)>, r: Effect) {
    match r
    case Err(env) => got == Err(env)
    case Ok((v, env)) => got.Ok? && got.value.0 == v && got.value.1 == env
  }

  /** At depth `d` every named variable is evaluated as a tree that consists of it, whether assignments are
      on or not. */
  ghost predicate Known(h: Held, d: nat)
    requires d <= MAX_DEPTH
  {
    forall s: State :: s.tokstr in h.names && Holds(s.env, h) ==>
      Came(StrEval(s, d), Run(Var(s.tokstr), s.env, false, h, d))
  }

  /** The value of a variable that holds a numeral. */
  lemma {:induction false} NumeralHeld(s: State, n: int, h: Held, d: nat)
    requires d < MAX_DEPTH && s.tokstr in s.env && s.env[s.tokstr] == Itos(n)
    requires s.tokstr in h.trees ==> s.env[s.tokstr] != Print(h.trees[s.tokstr], 0)
    ensures Came(StrEval(s, d), Run(Var(s.tokstr), s.env, false, h, d))
  {
    hide SubExpr, Itos, Print, QuietFrom, QuietAt, QuietEnv;
    ItosValue(n);
    ItosEval(n, s.env, s.noeval, s.assignop, d);
  }

  lemma {:induction false} ItosEval(n: int, env: Env, noeval: nat, op: BinOp, d: nat)
    requires d < MAX_DEPTH
    ensures SubExpr(Itos(n), env, noeval, op, d) == Ok((n, env, op))
  {
    hide SubExpr, QuietFrom, QuietAt, QuietEnv;
    if n < 0 { NegativeEval(-n, env, noeval, op, d); } else { LiteralEval(n, env, noeval, op, d); }
  }

  lemma {:induction false} WantedValue(s: State, x: string, h: Held, d: nat)
    requires d <= MAX_DEPTH && x in h.names && Holds(s.env, h) && Known(h, d) && s.tokstr == x
    ensures match Lookup(s.env, x, h, d)
      case None => StrEval(s, d) == Err(s.env)
      case Some(v) => StrEval(s, d).Ok? && StrEval(s, d).value.0 == v && StrEval(s, d).value.1 == s.env
  {
    hide StrEval, Lookup, Holds;
    assert Came(StrEval(s, d), Run(Var(s.tokstr), s.env, false, h, d));
  }

  /** A variable whose value is wanted: there is a token only if it has one. */
  lemma ReadVar(s: State, x: string, w: string, h: Held, peek: State, d: nat) returns (s1: State)
    requires d <= MAX_DEPTH && Identifier(x) && x in h.names && Holds(s.env, h) && Known(h, d) && EndsName(w)
    requires Ahead(s, x + w) && ReadTok(Peeking(s, x), d) == Ok(peek) && (peek.cur != Eq || !NoStep(s.last))
    ensures match Lookup(s.env, x, h, d)
      case None => ReadTok(s, d) == Err(s.env)
      case Some(v) => ReadTok(s, d) == Ok(s1) && TookVar(s, s1, x, w) && s1.tokval == v
  {
    hide ReadTok, StrEval, SkipWhite, Lookup, Holds, Known, Identifier, EndsName, Ahead, QuietFrom, QuietAt, QuietEnv;
    NameRead(s, x, w, d);
    var j := Start(s) + |x|;
    var at := s.(tokstr := x, env := peek.env, assignop := peek.assignop);
    assert peek.env == s.env;
    WantedValue(at, x, h, d);
    var r := ValueFetched(at, j, peek.cur, d);
    assert ReadTok(s, d) == r;
    s1 := if r.Ok? then r.value else s;
    if r.Ok? { SameAhead(Peeking(s, x), s1, w); }
  }

  /** A variable that is about to be assigned to: its value does not matter. */
  lemma ReadTarget(s: State, x: string, w: string, peek: State, d: nat) returns (s1: State)
    requires d <= MAX_DEPTH && Identifier(x) && EndsName(w) && Ahead(s, x + w) && NoStep(s.last)
    requires ReadTok(Peeking(s, x), d) == Ok(peek) && peek.cur == Eq
    ensures ReadTok(s, d) == Ok(s1) && TookVar(s, s1, x, w)
  {
    hide ReadTok, StrEval, SkipWhite, Identifier, EndsName, Ahead, QuietFrom, QuietAt, QuietEnv, Quiet;
    NameRead(s, x, w, d);
    assert peek.env == s.env;
    var at := s.(tokstr := x, env := peek.env, assignop := peek.assignop);
    s1 := ValueFetched(at, Start(s) + |x|, peek.cur, d).value;
    assert ReadTok(s, d) == Ok(s1);
    SameAhead(Peeking(s, x), s1, w);
  }

  // ---------- Reading a printed tree ----------

  /** Not `++` or `--` before a variable. */
  predicate NoStep(t: Tok) { t != PreInc && t != PreDec }

  /** Past an operand, at the token `t` with `w` behind it, with the variables as in `env`. */
  ghost predicate Past(s: State, s1: State, t: Tok, w: string, env: Env) {
    && s1.cur == t && Good(s1) && Ahead(s1, w) && s1.text == s.text && s1.noeval == s.noeval && s1.env == env
    && NoStep(s1.last)
  }

  /** Ready to read an operand. */
  ghost predicate Ready(s: State, h: Held, d: nat) {
    && Good(s) && s.cur != Str && NoStep(s.cur) && NoStep(s.last)
    && d <= MAX_DEPTH && Holds(s.env, h) && Known(h, d)
  }

  lemma ReadyGood(s: State, h: Held, d: nat)
    requires Ready(s, h, d)
    ensures Good(s) && d <= MAX_DEPTH
  {
  }

  /** What a tree does at `s` if assignments are switched off for it when `off`. */
  function RunAt(e: Tree, s: State, off: bool, h: Held, d: nat): Effect
    requires d <= MAX_DEPTH
  {
    Run(e, s.env, Muffle(s, off).noeval == 0, h, d)
  }

  ghost function Outcome(k: nat, r: Effect, s: State, d: nat): Res<Val>
    requires Good(s) && d <= MAX_DEPTH && k <= 15
  {
    match r case Err(env) => Err(env) case Ok((v, _)) => Rest(k, v, s, d)
  }

  /** The parser of level `k` from the first token on; assignments may be switched off once that is read. */
  ghost function Begin(k: nat, s: State, off: bool, d: nat): Res<Val>
    requires Good(s) && d <= MAX_DEPTH && k <= 15
  {
    match ReadTok(s, d) case Err(env) => Err(env) case Ok(q) => Parse(k, Muffle(q, off), d)
  }

  /** The first token, if any, is not a unary operator. */
  ghost predicate NotUnary(s: State, d: nat)
    requires Good(s) && d <= MAX_DEPTH
  {
    ReadTok(s, d).Ok? ==> UnaryOp(ReadTok(s, d).value.cur).None?
  }

  lemma Rise(k: nat, j: nat, s: State, off: bool, r: Effect, s1: State, d: nat)
    requires Good(s) && Good(s1) && d <= MAX_DEPTH && k <= j <= 15
    requires TokLevel(s1.cur) <= k && (k <= 1 ==> !Assigning(s1.cur)) && (j == 15 ==> NotUnary(s, d))
    requires Begin(j, s, off, d) == Outcome(j, r, s1, d)
    ensures Begin(k, s, off, d) == Outcome(k, r, s1, d)
  {
    hide ReadTok, Parse, Rest, UnaryOp, TokLevel, Assigning, QuietFrom, QuietAt, QuietEnv, Quiet;
    match ReadTok(s, d)
    case Err(_) => if k < j && r.Ok? { RestStops(j, r.value.0, s1, d); }
    case Ok(q) => Climb(k, j, Muffle(q, off), r, s1, d);
  }

  /** Where a tree ends: if it has a value, past it, with the variables as it leaves them. */
  ghost predicate Landed(s: State, s1: State, t: Tok, w: string, r: Effect) {
    Good(s1) && s1.cur == t && (r.Ok? ==> Past(s, s1, t, w, r.value.1))
  }

  /** What being past an operand means. */
  lemma Here(s: State, s1: State, t: Tok, w: string, r: Effect)
    requires Landed(s, s1, t, w, r)
    ensures Good(s1) && s1.cur == t
    ensures r.Ok? ==> Ahead(s1, w) && s1.text == s.text && s1.noeval == s.noeval && s1.env == r.value.1
    ensures r.Ok? ==> NoStep(s1.last)
  {
    hide Ahead;
  }

  /** A tree that has no value ends nowhere. */
  lemma NoValue(s0: State, s: State, t: Tok, w: string, k: nat, env: Env, d: nat) returns (s1: State)
    requires Good(s) && d <= MAX_DEPTH && k <= 15
    ensures Landed(s0, s1, t, w, Err(env)) && Outcome(k, Err(env), s1, d) == Err(env)
  {
    hide Rest;
    s1 := s.(cur := t);
  }

  /** Past a tree that has a value, the next operand can be read. */
  lemma Onward(e: Tree, s: State, off: bool, s1: State, t: Tok, w: string, h: Held, d: nat)
    requires Ready(s, h, d) && Landed(Muffle(s, off), s1, t, w, RunAt(e, s, off, h, d))
    requires RunAt(e, s, off, h, d).Ok? && t != Str && NoStep(t)
    ensures Ready(s1, h, d) && Ahead(s1, w) && s1.cur == t && s1.text == s.text
    ensures s1.noeval == Muffle(s, off).noeval && s1.env == RunAt(e, s, off, h, d).value.1
  {
    hide Ahead, Run, Holds, Known;
    RunHolds(e, s.env, Muffle(s, off).noeval == 0, h, d);
  }

  lemma LandedFrom(s: State, s0: State, s1: State, t: Tok, w: string, r: Effect)
    requires Landed(s0, s1, t, w, r) && s0.text == s.text && s0.noeval == s.noeval
    ensures Landed(s, s1, t, w, r)
  {
    hide Ahead;
  }

  /** Switching assignments back on after they were switched off. */
  lemma UnmuffleBack(s: State, s1: State, w: string, off: bool)
    requires Ahead(s1, w) && s1.noeval == Muffle(s, off).noeval
    ensures var s2 := Unmuffle(s1, off);
            Ahead(s2, w) && Good(s2) && s2.noeval == s.noeval && s2 == s1.(noeval := s.noeval)
  {
    hide SkipWhite;
  }

  lemma MuffleAhead(s: State, w: string, off: bool)
    requires Ahead(s, w)
    ensures Ahead(Muffle(s, off), w) && Ahead(Unmuffle(s, off), w)
  {
  }

  lemma MuffleSame(s: State, q: State, off: bool)
    requires q.text == s.text && q.noeval == s.noeval
    ensures Muffle(q, off).text == Muffle(s, off).text && Muffle(q, off).noeval == Muffle(s, off).noeval
    ensures Muffle(q, off) == q.(noeval := Muffle(s, off).noeval)
  {
  }

  lemma FollowEnds(t: Tok, w: string)
    requires Follows(t, w)
    ensures EndsName(Then(t, w)) && Tight(Then(t, w))
    ensures Then(t, w) != "" ==> !NumChar(Then(t, w)[0])
    ensures t !in {Eq, OpAssign, PostInc, PostDec, Str}
  {
    FollowShape(t, w);
  }

  lemma {:induction false} BeginOperand(s: State, off: bool, q: State, d: nat)
    requires d <= MAX_DEPTH && Good(s) && ReadTok(s, d) == Ok(q)
    ensures Good(q) && Begin(15, s, off, d) == Exp0(Muffle(q, off), d)
  {
    hide ReadTok, Exp0, QuietFrom, QuietAt, QuietEnv, Quiet;
  }

  lemma {:induction false} NumberAlone(s: State, s1: State, d: nat)
    requires Good(s) && d <= MAX_DEPTH && s.cur == Num && ReadTok(s, d) == Ok(s1)
    ensures Exp0(s, d) == Ok((s.tokval, s1))
  {
    hide ReadTok, QuietFrom, QuietAt, QuietEnv, Quiet;
  }

  lemma LitReads(text: string, off: bool, s: State, h: Held, t: Tok, w: string, d: nat) returns (s1: State)
    requires Good(s) && d <= MAX_DEPTH && IsNumber(text) && Follows(t, w) && Ahead(s, text + Then(t, w))
    ensures NotUnary(s, d) && Landed(Muffle(s, off), s1, t, w, RunAt(Lit(text), s, off, h, d))
    ensures Begin(15, s, off, d) == Outcome(15, RunAt(Lit(text), s, off, h, d), s1, d)
  {
    hide ReadTok, Exp0, Begin, SkipWhite, Follows, Then, Ahead, Strlong, IsNumber, QuietFrom, QuietAt, QuietEnv, Quiet;
    FollowEnds(t, w);
    var q := ReadLit(s, text, Then(t, w), d);
    if Strlong(text) == None {
      s1 := NoValue(Muffle(s, off), s, t, w, 15, s.env, d);
      NoToken(s, 15, off, d);
    } else {
      MuffleAhead(q, Then(t, w), off);
      BeginOperand(s, off, q, d);
      s1 := ReadFollow(Muffle(q, off), t, w, d);
      NumberAlone(Muffle(q, off), s1, d);
    }
  }

  /** From a variable on, with a token behind it that does not assign. */
  lemma VarRest(q: State, t: Tok, w: string, d: nat) returns (s1: State)
    requires d <= MAX_DEPTH && Good(q) && q.cur == Str && Follows(t, w) && Ahead(q, Then(t, w))
    ensures Past(q, s1, t, w, q.env) && s1.assignop == q.assignop && s1.last == Str
    ensures Exp0(q, d) == Ok((q.tokval, s1))
  {
    hide ReadTok, SkipWhite, Follows, Then, QuietFrom, QuietAt, QuietEnv, Quiet, Bind;
    FollowEnds(t, w);
    var peek := ReadFollow(q.(tokstr := "", noeval := 1), t, w, d);
    assert StepAfter(q, d) == Ok(q);
    s1 := ReadFollow(q, t, w, d);
  }

  /** A variable followed by a token that does not assign. */
  lemma VarReads(x: string, off: bool, s: State, h: Held, t: Tok, w: string, d: nat) returns (s1: State)
    requires Ready(s, h, d) && Identifier(x) && x in h.names && Follows(t, w) && Ahead(s, x + Then(t, w))
    ensures NotUnary(s, d) && Landed(Muffle(s, off), s1, t, w, RunAt(Var(x), s, off, h, d))
    ensures Begin(15, s, off, d) == Outcome(15, RunAt(Var(x), s, off, h, d), s1, d)
  {
    hide ReadTok, SkipWhite, Follows, Then, Lookup, QuietFrom, QuietAt, QuietEnv, Exp0;
    hide Holds, Known, Identifier, Ahead;
    var q := PlainVar(s, x, h, t, w, d);
    if Lookup(s.env, x, h, d).None? {
      s1 := s.(cur := t);
    } else {
      MuffleAhead(q, Then(t, w), off);
      s1 := VarRest(Muffle(q, off), t, w, d);
    }
  }

  /** The variable of the token at hand gets a value: the state in which the next token is read. */
  function Stepped(s: State, x: string, v: int): State {
    Bind(s, x, v).(cur := Num)
  }

  lemma SteppedAhead(s: State, x: string, v: int, w: string)
    requires Ahead(s, w)
    ensures Ahead(Stepped(s, x, v), w) && Good(Stepped(s, x, v))
    ensures Stepped(s, x, v).env == Store(s.env, x, v, s.noeval == 0)
  {
  }

  lemma SameAhead(s: State, s1: State, w: string)
    requires Ahead(s, w) && s1.text == s.text && s1.tp == s.tp
    ensures Ahead(s1, w) && Good(s1)
  {
  }

  function PreTok(step: Step): Tok {
    match step case Incr => PreInc case Decr => PreDec
  }

  function PostTok(step: Step): Tok {
    match step case Incr => PostInc case Decr => PostDec
  }

  /** A variable with a token behind it that does not assign. */
  lemma PlainVar(s: State, x: string, h: Held, t: Tok, w: string, d: nat) returns (q: State)
    requires d <= MAX_DEPTH && Holds(s.env, h) && Known(h, d) && Identifier(x) && x in h.names && Follows(t, w)
    requires Ahead(s, x + Then(t, w))
    ensures match Lookup(s.env, x, h, d)
      case None => ReadTok(s, d) == Err(s.env)
      case Some(v) => ReadTok(s, d) == Ok(q) && TookVar(s, q, x, Then(t, w)) && q.tokval == v
  {
    hide ReadTok, SkipWhite, Follows, Then, Lookup, QuietFrom, QuietAt, QuietEnv, Quiet, Ahead, Identifier, EndsName;
    hide Holds, Known, Start;
    FollowEnds(t, w);
    NameRead(s, x, Then(t, w), d);
    var peek := ReadFollow(Peeking(s, x), t, w, d);
    q := ReadVar(s, x, Then(t, w), h, peek, d);
  }

  /** From a `++` or `--` before the variable `x` on. */
  lemma PreRest(step: Step, x: string, q: State, h: Held, t: Tok, w: string, d: nat) returns (s1: State)
    requires Good(q) && q.cur == PreTok(step) && d <= MAX_DEPTH && Holds(q.env, h) && Known(h, d)
    requires Identifier(x) && x in h.names && Follows(t, w) && Ahead(q, x + Then(t, w))
    ensures match Lookup(q.env, x, h, d)
      case None => PreStep(q, Delta(step), d) == Err(q.env)
      case Some(a) =>
        && Past(q, s1, t, w, Store(q.env, x, a + Delta(step), q.noeval == 0))
        && PreStep(q, Delta(step), d) == Ok((a + Delta(step), s1))
  {
    hide ReadTok, SkipWhite, Follows, Then, Lookup, QuietFrom, QuietAt, QuietEnv, Quiet, Bind, Store;
    hide Ahead, Identifier, EndsName, Tight, Holds, Known, Delta, Start, StepText;
    var v := Then(t, w);
    var q1 := q.(last := q.cur);
    SameAhead(q, q1, x + v);
    var q2 := PlainVar(q1, x, h, t, w, d);
    if Lookup(q.env, x, h, d).None? {
      s1 := q;
    } else {
      var y := q2.tokval + Delta(step);
      SteppedAhead(q2, x, y, v);
      s1 := ReadFollow(Stepped(q2, x, y), t, w, d);
    }
  }

  lemma {:induction false} PreOperand(q: State, step: Step, d: nat)
    requires d <= MAX_DEPTH && Good(q) && q.cur == PreTok(step)
    ensures Exp0(q, d) == PreStep(q, Delta(step), d) && UnaryOp(q.cur).None?
  {
    hide ReadTok, PreStep, QuietFrom, QuietAt, QuietEnv, Quiet;
  }

  lemma {:induction false} RunSteps(step: Step, x: string, s: State, off: bool, h: Held, d: nat)
    requires d <= MAX_DEPTH
    ensures match Lookup(s.env, x, h, d)
      case None => RunAt(Pre(step, x), s, off, h, d) == RunAt(Post(x, step), s, off, h, d) == Err(s.env)
      case Some(a) =>
        var env1 := Store(s.env, x, a + Delta(step), Muffle(s, off).noeval == 0);
        && RunAt(Pre(step, x), s, off, h, d) == Ok((a + Delta(step), env1))
        && RunAt(Post(x, step), s, off, h, d) == Ok((a, env1))
  {
    hide Muffle, Store, Delta, Lookup;
  }

  /** The `++` or `--` before a variable. */
  lemma PreHead(step: Step, off: bool, s: State, v: string, d: nat) returns (q: State)
    requires d <= MAX_DEPTH && Good(s) && s.cur != Str && v != "" && VarStart(v[0]) && Ahead(s, StepText(step) + v)
    ensures Good(q) && q.cur == PreTok(step) && Ahead(q, v) && NotUnary(s, d)
    ensures q.text == s.text && q.noeval == Muffle(s, off).noeval && q.env == s.env
    ensures Begin(15, s, off, d) == Exp0(q, d)
  {
    hide ReadTok, SkipWhite, QuietFrom, QuietAt, QuietEnv, Quiet, StepText, Ahead, Exp0, Begin, PreTok, UnaryOp, Muffle;
    hide VarStart;
    NotStr(step);
    var q0 := ReadStep(s, step, v, d);
    MuffleAhead(q0, v, off);
    BeginOperand(s, off, q0, d);
    MuffleSame(s, q0, off);
    q := Muffle(q0, off);
    PreOperand(q, step, d);
  }

  lemma PreReads(step: Step, x: string, off: bool, s: State, h: Held, t: Tok, w: string, d: nat)
      returns (s1: State)
    requires Ready(s, h, d) && Identifier(x) && x in h.names && Follows(t, w)
    requires Ahead(s, StepText(step) + (x + Then(t, w)))
    ensures NotUnary(s, d) && Landed(Muffle(s, off), s1, t, w, RunAt(Pre(step, x), s, off, h, d))
    ensures Begin(15, s, off, d) == Outcome(15, RunAt(Pre(step, x), s, off, h, d), s1, d)
  {
    hide ReadTok, SkipWhite, Follows, Then, Lookup, QuietFrom, QuietAt, QuietEnv, Quiet, Store, StepText;
    hide Ahead, EndsName, Tight, Holds, Known, Exp0, PreStep, Begin, RunAt, Delta, Past, PreTok, UnaryOp, Muffle, Start;
    hide Identifier, VarStart, NotUnary;
    RunSteps(step, x, s, off, h, d);
    NameStarts(x, Then(t, w));
    var q := PreHead(step, off, s, x + Then(t, w), d);
    PreOperand(q, step, d);
    s1 := PreRest(step, x, q, h, t, w, d);
    if Lookup(s.env, x, h, d).None? {
      s1 := NoValue(Muffle(s, off), s, t, w, 15, s.env, d);
    } else {
      PastFrom(Muffle(s, off), q, s1, t, w, RunAt(Pre(step, x), s, off, h, d).value.1);
    }
  }

  lemma NameStarts(x: string, w: string)
    requires Identifier(x)
    ensures x + w != "" && VarStart((x + w)[0])
  {
  }

  lemma NotStr(step: Step)
    ensures PreTok(step) != Str && PreTok(step) != OpAssign
  {
  }

  lemma PastFrom(s: State, s0: State, s1: State, t: Tok, w: string, env: Env)
    requires Past(s0, s1, t, w, env) && s0.text == s.text && s0.noeval == s.noeval
    ensures Past(s, s1, t, w, env) && Good(s1) && s1.cur == t
  {
    hide Ahead;
  }

  lemma PostEnds(step: Step, v: string)
    ensures EndsName(StepText(step) + v) && Tight(StepText(step) + v)
  {
  }

  /** A `++` or `--` behind a variable takes effect. */
  lemma {:induction false} StepTaken(q: State, step: Step, peek: State, d: nat)
    requires d <= MAX_DEPTH && Good(q) && q.cur == Str && ReadTok(q.(tokstr := "", noeval := 1), d) == Ok(peek)
    requires peek.cur == PostTok(step)
    ensures var q2 := peek.(tokstr := q.tokstr, noeval := q.noeval, last := Str);
            StepAfter(q, d) == Ok(Stepped(q2, q.tokstr, q.tokval + Delta(step)))
  {
    hide ReadTok, Bind, QuietFrom, QuietAt, QuietEnv, Quiet;
  }

  /** From the variable `x` with `++` or `--` behind it on. */
  lemma PostRest(x: string, step: Step, q: State, t: Tok, w: string, d: nat) returns (s1: State)
    requires d <= MAX_DEPTH && Good(q) && q.cur == Str && q.tokstr == x && Follows(t, w)
    requires Ahead(q, StepText(step) + Then(t, w))
    ensures Past(q, s1, t, w, Store(q.env, x, q.tokval + Delta(step), q.noeval == 0))
    ensures Exp0(q, d) == Ok((q.tokval, s1))
  {
    hide ReadTok, SkipWhite, Follows, Then, QuietFrom, QuietAt, QuietEnv, Quiet, Bind, Store, StepText, Ahead;
    var v, y := Then(t, w), q.tokval + Delta(step);
    FollowEnds(t, w);
    var q1 := q.(tokstr := "", noeval := 1);
    SameAhead(q, q1, StepText(step) + v);
    var peek := ReadPost(q1, step, v, d);
    var q2 := peek.(tokstr := x, noeval := q.noeval, last := Str);
    SameAhead(peek, q2, v);
    SteppedAhead(q2, x, y, v);
    StepTaken(q, step, peek, d);
    s1 := ReadFollow(Stepped(q2, x, y), t, w, d);
  }

  lemma PostReads(x: string, step: Step, off: bool, s: State, h: Held, t: Tok, w: string, d: nat)
      returns (s1: State)
    requires Ready(s, h, d) && Identifier(x) && x in h.names && Follows(t, w)
    requires Ahead(s, x + (StepText(step) + Then(t, w)))
    ensures NotUnary(s, d) && Landed(Muffle(s, off), s1, t, w, RunAt(Post(x, step), s, off, h, d))
    ensures Begin(15, s, off, d) == Outcome(15, RunAt(Post(x, step), s, off, h, d), s1, d)
  {
    hide ReadTok, SkipWhite, Follows, Then, Lookup, QuietFrom, QuietAt, QuietEnv, Quiet, Store, StepText;
    hide Ahead, Identifier, EndsName, Holds, Known, Exp0, Start, Begin, RunAt, Delta, Past, Muffle;
    RunSteps(step, x, s, off, h, d);
    var v := StepText(step) + Then(t, w);
    FollowEnds(t, w);
    var q := PostVar(s, x, step, h, Then(t, w), d);
    if Lookup(s.env, x, h, d).None? {
      s1 := NoValue(Muffle(s, off), s, t, w, 15, s.env, d);
      NoToken(s, 15, off, d);
    } else {
      MuffleAhead(q, v, off);
      BeginOperand(s, off, q, d);
      MuffleSame(s, q, off);
      s1 := PostRest(x, step, Muffle(q, off), t, w, d);
      PastFrom(Muffle(s, off), Muffle(q, off), s1, t, w, RunAt(Post(x, step), s, off, h, d).value.1);
    }
  }

  lemma {:induction false} NoToken(s: State, k: nat, off: bool, d: nat)
    requires Good(s) && d <= MAX_DEPTH && k <= 15 && ReadTok(s, d).Err?
    ensures Begin(k, s, off, d) == Err(ReadTok(s, d).env)
  {
    hide ReadTok, Parse;
  }

  /** A variable with `++` or `--` behind it. */
  lemma PostVar(s: State, x: string, step: Step, h: Held, v: string, d: nat) returns (q: State)
    requires d <= MAX_DEPTH && Holds(s.env, h) && Known(h, d) && Identifier(x) && x in h.names && Tight(v)
    requires Ahead(s, x + (StepText(step) + v))
    ensures match Lookup(s.env, x, h, d)
      case None => ReadTok(s, d) == Err(s.env)
      case Some(a) => ReadTok(s, d) == Ok(q) && TookVar(s, q, x, StepText(step) + v) && q.tokval == a
  {
    hide ReadTok, SkipWhite, Lookup, QuietFrom, QuietAt, QuietEnv, Quiet, Ahead, Identifier, EndsName, StepText;
    hide Holds, Known, Start;
    PostEnds(step, v);
    NameRead(s, x, StepText(step) + v, d);
    var peek := ReadPost(Peeking(s, x), step, v, d);
    q := ReadVar(s, x, StepText(step) + v, h, peek, d);
  }

  // ---------- The levels, with trees ----------

  /** The level-`k` parser on the printed tree ends up where it would with the tree's value in hand, the
      following token next and the variables as the tree leaves them. */
  lemma {:induction false} Reads(e: Tree, k: nat, off: bool, s: State, h: Held, t: Tok, w: string, d: nat)
      returns (s1: State)
    requires k <= 15 && Ready(s, h, d) && Legal(e, h) && Follows(t, w) && TokLevel(t) <= Limit(k)
    requires Ahead(s, Print(e, k) + Then(t, w))
    ensures Landed(Muffle(s, off), s1, t, w, RunAt(e, s, off, h, d))
    ensures Begin(k, s, off, d) == Outcome(k, RunAt(e, s, off, h, d), s1, d)
    decreases e, if Prec(e) < k then 5 else 3
  {
    hide Begin, Rest, ReadTok, Ahead, Bare, Run, Then, Muffle, Holds, Known, Legal, QuietFrom, QuietAt, QuietEnv;
    FollowEnds(t, w);
    if Prec(e) < k {
      s1 := ParenReads(e, off, s, h, t, w, d);
      Rise(k, 15, s, off, RunAt(e, s, off, h, d), s1, d);
    } else {
      s1 := BareReads(e, off, s, h, t, w, d);
      Rise(k, Prec(e), s, off, RunAt(e, s, off, h, d), s1, d);
    }
  }

  lemma {:induction false} ParenReads(e: Tree, off: bool, s: State, h: Held, t: Tok, w: string, d: nat)
      returns (s1: State)
    requires Ready(s, h, d) && Legal(e, h) && Follows(t, w)
    requires Ahead(s, "(" + (Bare(e) + ")") + Then(t, w))
    ensures Landed(Muffle(s, off), s1, t, w, RunAt(e, s, off, h, d))
    ensures NotUnary(s, d)
    ensures Begin(15, s, off, d) == Outcome(15, RunAt(e, s, off, h, d), s1, d)
    decreases e, 4
  {
    hide ReadTok, Bare, Run, Holds, Known, Legal, QuietFrom, QuietAt, QuietEnv, Quiet, SkipWhite, Ahead, Parse, Follows;
    hide Print, Then, Tight, Landed, Outcome;
    var v := Then(t, w);
    FollowEnds(t, w);
    ParenText(e, v, h);
    var q0 := ReadParen(s, Print(e, 0) + (")" + v), d);
    MuffleAhead(q0, Print(e, 0) + (")" + v), off);
    var q := Muffle(q0, off);
    var s2 := Reads(e, 0, false, q, h, RPar, v, d);
    NoMuffle(q);
    s1 := ParenEnd(q, RunAt(e, s, off, h, d), s2, t, w, d);
    LandedFrom(Muffle(s, off), q, s1, t, w, RunAt(e, s, off, h, d));
  }

  /** Past the closing parenthesis. */
  lemma ParenEnd(q: State, r: Effect, s2: State, t: Tok, w: string, d: nat) returns (s1: State)
    requires d <= MAX_DEPTH && Good(q) && q.cur == LPar && Follows(t, w) && Landed(q, s2, RPar, Then(t, w), r)
    requires Begin(0, q, false, d) == Outcome(0, r, s2, d)
    ensures Landed(q, s1, t, w, r) && Parse(15, q, d) == Outcome(15, r, s1, d)
  {
    hide ReadTok, QuietFrom, QuietAt, QuietEnv, Quiet, Ahead, Follows, Then, Parse;
    s1 := q.(cur := t);
    if r.Ok? { s1 := ReadFollow(s2, t, w, d); }
    ParenParse(q, r, s2, s1, d);
  }

  lemma {:induction false} ParenText(e: Tree, v: string, h: Held)
    requires Legal(e, h) && Tight(v)
    ensures "(" + (Bare(e) + ")") + v == "(" + (Print(e, 0) + (")" + v)) && ")" + v == Then(RPar, v)
    ensures Tight(Print(e, 0) + (")" + v)) && Follows(RPar, v)
  {
    PrintFair(e, 0, h);
    hide Bare;
  }

  lemma {:induction false} ParenParse(q: State, r: Effect, s2: State, s1: State, d: nat)
    requires d <= MAX_DEPTH && Good(q) && q.cur == LPar && Good(s2) && s2.cur == RPar && Good(s1)
    requires r.Ok? ==> ReadTok(s2, d) == Ok(s1)
    requires Begin(0, q, false, d) == Outcome(0, r, s2, d)
    ensures Parse(15, q, d) == Outcome(15, r, s1, d)
  {
    hide ReadTok, QuietFrom, QuietAt, QuietEnv;
  }

  lemma {:induction false} BareReads(e: Tree, off: bool, s: State, h: Held, t: Tok, w: string, d: nat)
      returns (s1: State)
    requires Ready(s, h, d) && Legal(e, h) && Follows(t, w) && TokLevel(t) <= Limit(Prec(e))
    requires Ahead(s, Bare(e) + Then(t, w))
    ensures Landed(Muffle(s, off), s1, t, w, RunAt(e, s, off, h, d))
    ensures Prec(e) == 15 ==> NotUnary(s, d)
    ensures Begin(Prec(e), s, off, d) == Outcome(Prec(e), RunAt(e, s, off, h, d), s1, d)
    decreases e, 2
  {
    hide ReadTok, Print, Holds, QuietFrom, QuietAt, QuietEnv, Quiet, SkipWhite, Ahead, Follows, Then, Parse, Rest;
    hide Run, Landed, Identifier, Muffle, Begin;
    if e.Paren? {
      s1 := ParenReads(e.arg, off, s, h, t, w, d);
      RunParen(e, s, off, h, d);
    } else if Prec(e) == 15 {
      s1 := LeafReads(e, off, s, h, t, w, d);
    } else {
      match e
      case Un(op, a) => s1 := UnReads(op, a, off, s, h, t, w, d);
      case Bin(op, l, r) => s1 := BinReads(op, l, r, off, s, h, t, w, d);
      case Test(c, a, b) => s1 := TestReads(c, a, b, off, s, h, t, w, d);
      case Set(x, a) => s1 := SetReads(x, a, off, s, h, t, w, d);
      case Update(x, op, a) => s1 := UpdateReads(x, op, a, off, s, h, t, w, d);
      case Seq(l, r) => s1 := SeqReads(l, r, off, s, h, t, w, d);
    }
  }

  lemma RunParen(e: Tree, s: State, off: bool, h: Held, d: nat)
    requires e.Paren? && d <= MAX_DEPTH
    ensures RunAt(e, s, off, h, d) == RunAt(e.arg, s, off, h, d)
  {
  }

  lemma LeafReads(e: Tree, off: bool, s: State, h: Held, t: Tok, w: string, d: nat)
      returns (s1: State)
    requires Ready(s, h, d) && Legal(e, h) && Prec(e) == 15 && !e.Paren? && Follows(t, w)
    requires Ahead(s, Bare(e) + Then(t, w))
    ensures Landed(Muffle(s, off), s1, t, w, RunAt(e, s, off, h, d))
    ensures NotUnary(s, d)
    ensures Begin(15, s, off, d) == Outcome(15, RunAt(e, s, off, h, d), s1, d)
  {
    hide ReadTok, Holds, QuietFrom, QuietAt, QuietEnv, Quiet, SkipWhite, Ahead, Follows, Then, Exp0, Lookup, Store;
    hide StepText, Identifier, Muffle, Begin;
    match e
    case Lit(text) => s1 := LitReads(text, off, s, h, t, w, d);
    case Var(x) => s1 := VarReads(x, off, s, h, t, w, d);
    case Pre(step, x) =>
      Regroup1(StepText(step), x, Then(t, w));
      s1 := PreReads(step, x, off, s, h, t, w, d);
    case Post(x, step) =>
      Regroup1(x, StepText(step), Then(t, w));
      s1 := PostReads(x, step, off, s, h, t, w, d);
  }

  lemma Regroup1(a: string, b: string, c: string)
    ensures (a + b) + c == a + (b + c)
  {
  }

  lemma {:induction false} UnReads(op: UnOp, a: Tree, off: bool, s: State, h: Held, t: Tok,
      w: string, d: nat)
      returns (s1: State)
    requires Ready(s, h, d) && Legal(a, h) && Follows(t, w) && TokLevel(t) <= 14
    requires Ahead(s, Bare(Un(op, a)) + Then(t, w))
    ensures Landed(Muffle(s, off), s1, t, w, RunAt(Un(op, a), s, off, h, d))
    ensures Begin(14, s, off, d) == Outcome(14, RunAt(Un(op, a), s, off, h, d), s1, d)
    decreases Un(op, a), 1
  {
    hide ReadTok, Print, Bare, Holds, Known, Legal, QuietFrom, QuietAt, QuietEnv, Quiet, SkipWhite, Ahead, Follows;
    hide Then, Parse, Rest, Unary, Fair, Tight;
    var v := Print(a, 14) + Then(t, w);
    UnText1(op, a, Then(t, w), h);
    var q0 := ReadUn(s, op, v, d);
    MuffleAhead(q0, v, off);
    var q := Muffle(q0, off);
    s1 := Reads(a, 14, false, q, h, t, w, d);
    UnStep(op, q, Run(a, s.env, q.noeval == 0, h, d), s1, d);
  }

  lemma {:induction false} UnText1(op: UnOp, a: Tree, w: string, h: Held)
    requires Legal(a, h)
    ensures Bare(Un(op, a)) + w == UnText(op) + (Gap(UnText(op), Print(a, 14) + w) + (Print(a, 14) + w))
    ensures Fair(Print(a, 14) + w) && Tight(Print(a, 14) + w)
  {
    PrintFair(a, 14, h);
    hide Print;
  }

  lemma UnStep(op: UnOp, q: State, r: Effect, s1: State, d: nat)
    requires Good(q) && d <= MAX_DEPTH && UnaryOp(q.cur) == Some(op) && Good(s1)
    requires Begin(14, q, false, d) == Outcome(14, r, s1, d)
    ensures Parse(14, q, d)
         == Outcome(14, Signed(op, r), s1, d)
  {
    hide ReadTok, QuietFrom, QuietAt, QuietEnv, Quiet, Unary;
  }

  /** Behind the right operand of `op`, assignments are as they were before it. */
  function AfterRight(op: BinOp, a: int, s: State): State {
    var s1 := Unmuffle(s, Skips(op, a));
    if op == Lor || op == Land then s1.(last := Op(op)) else s1
  }

  lemma PowerZero(a: int)
    ensures Binary(Power, a, 0) == Some(1)
  {
  }

  lemma {:induction false} PowerStep(a: int, s2: State, r: Effect, s3: State, d: nat)
    requires d <= MAX_DEPTH && Good(s2) && Good(s3) && s2.cur == Op(Power) && TokLevel(s3.cur) <= 12
    requires ReadTok(s2, d).Ok? && ExpPower(ReadTok(s2, d).value, d) == Outcome(13, r, s3, d)
    requires r.Ok? ==> s3.env == r.value.1
    ensures PowerLoop(a, s2, d) == Outcome(13, Combine(Power, a, r), s3, d)
  {
    hide ReadTok, Binary, ExpPower, QuietFrom, QuietAt, QuietEnv, Quiet;
    if r.Ok? { RestStops(13, r.value.0, s3, d); }
    PowerZero(a);
  }

  lemma LevelRange(op: BinOp)
    requires op != Power
    ensures 3 <= Level(op) <= 12
  {
  }

  lemma {:induction false} LoopStep(op: BinOp, a: int, s2: State, r: Effect, s3: State, d: nat)
    requires d <= MAX_DEPTH && Good(s2) && Good(s3) && s2.cur == Op(op) && op != Power
    requires TokLevel(s3.cur) <= Level(op)
    requires ReadTok(Muffle(s2, Skips(op, a)), d).Ok?
    requires Operand(Level(op), ReadTok(Muffle(s2, Skips(op, a)), d).value, d) == Outcome(Level(op) + 1, r, s3, d)
    requires r.Ok? ==> s3.env == r.value.1
    ensures BinLoop(Level(op), a, s2, d) == Outcome(Level(op), Combine(op, a, r), AfterRight(op, a, s3), d)
  {
    hide ReadTok, Binary, Operand, BinLoop, QuietFrom, QuietAt, QuietEnv, Quiet, Muffle, Unmuffle, Skips, AfterRight;
    LevelRange(op);
    if r.Ok? { RestStops(Level(op) + 1, r.value.0, s3, d); }
    LoopRound(Level(op), op, a, s2, r, s3, d);
  }

  lemma {:induction false} LoopRound(k: nat, op: BinOp, a: int, s2: State, r: Effect, s3: State, d: nat)
    requires 3 <= k <= 12 && Level(op) == k && d <= MAX_DEPTH && Good(s2) && Good(s3) && s2.cur == Op(op)
    requires ReadTok(Muffle(s2, Skips(op, a)), d).Ok? && (r.Ok? ==> s3.env == r.value.1)
    requires Operand(k, ReadTok(Muffle(s2, Skips(op, a)), d).value, d)
          == if r.Err? then Err(r.env) else Ok((r.value.0, s3))
    ensures BinLoop(k, a, s2, d)
         == var c := Combine(op, a, r);
            if c.Err? then Err(c.env) else BinLoop(k, c.value.0, AfterRight(op, a, s3), d)
  {
    hide ReadTok, Binary, Operand, QuietFrom, QuietAt, QuietEnv, Quiet, Muffle, Skips, Level;
  }

  /** The right operand has no first token. */
  lemma {:induction false} RightFails(op: BinOp, a: int, s2: State, r: Effect, s3: State, d: nat)
    requires d <= MAX_DEPTH && Good(s2) && Good(s3) && s2.cur == Op(op) && TokLevel(s3.cur) <= Limit(Level(op))
    requires ReadTok(Muffle(s2, Skips(op, a)), d).Err?
    requires Outcome(RightLevel(op), r, s3, d) == Err(ReadTok(Muffle(s2, Skips(op, a)), d).env)
    ensures r.Err? && Combine(op, a, r) == r && Rest(Level(op), a, s2, d) == Outcome(Level(op), r, s3, d)
  {
    hide ReadTok, QuietFrom, QuietAt, QuietEnv, Quiet;
    if r.Ok? { RestStops(RightLevel(op), r.value.0, s3, d); }
  }

  /** One round of a loop over the operators of a level. */
  lemma BinStep(op: BinOp, a: int, s2: State, r: Effect, s3: State, d: nat)
    requires d <= MAX_DEPTH && Good(s2) && Good(s3) && s2.cur == Op(op) && TokLevel(s3.cur) <= Limit(Level(op))
    requires Begin(RightLevel(op), Muffle(s2, Skips(op, a)), false, d) == Outcome(RightLevel(op), r, s3, d)
    requires r.Ok? ==> s3.env == r.value.1
    ensures Rest(Level(op), a, s2, d) == Outcome(Level(op), Combine(op, a, r), AfterRight(op, a, s3), d)
  {
    hide ReadTok, Combine, ExpBin, ExpPower, PowerLoop, BinLoop, QuietFrom, QuietAt, QuietEnv, Quiet;
    if ReadTok(Muffle(s2, Skips(op, a)), d).Err? {
      RightFails(op, a, s2, r, s3, d);
    } else if op == Power {
      PowerStep(a, s2, r, s3, d);
    } else {
      LoopStep(op, a, s2, r, s3, d);
    }
  }

  lemma Levels(op: BinOp)
    ensures Level(op) <= 15 && LeftLevel(op) <= 15 && TokLevel(Op(op)) <= Limit(LeftLevel(op)) && RightLevel(op) <= 15
    ensures forall t :: TokLevel(t) <= Limit(Level(op)) ==> TokLevel(t) <= Limit(RightLevel(op))
  {
  }

  lemma {:induction false} RunBin(op: BinOp, l: Tree, r: Tree, s: State, off: bool, h: Held, d: nat)
    requires d <= MAX_DEPTH
    ensures RunAt(Bin(op, l, r), s, off, h, d)
         == match RunAt(l, s, off, h, d)
            case Err(env1) => Err(env1)
            case Ok((a, env1)) => Combine(op, a, Run(r, env1, Muffle(s, off).noeval == 0 && !Skips(op, a), h, d))
  {
    hide Muffle, Skips, Combine;
  }

  lemma {:induction false} BinText(op: BinOp, l: Tree, r: Tree, w: string, h: Held)
    requires Legal(r, h)
    ensures Bare(Bin(op, l, r)) + w == Print(l, LeftLevel(op)) + Then(Op(op), Print(r, RightLevel(op)) + w)
    ensures Follows(Op(op), Print(r, RightLevel(op)) + w)
  {
    var v := Print(r, RightLevel(op));
    PrintFair(r, RightLevel(op), h);
    hide Print, Then, LeftLevel, RightLevel, Level, Follows;
    ThenAppend(Op(op), v, w);
    assert Bare(Bin(op, l, r)) == Print(l, LeftLevel(op)) + Then(Op(op), v);
    FairFollows(op, v, w);
  }

  lemma FairFollows(op: BinOp, v: string, w: string)
    requires Fair(v)
    ensures Follows(Op(op), v + w)
  {
  }

  lemma ThenAppend(t: Tok, v: string, w: string)
    requires v != ""
    ensures Then(t, v) + w == Then(t, v + w)
  {
    hide Core, OpText;
    assert GapAfter(t, v + w) == GapAfter(t, v);
    assert (Core(t) + (GapAfter(t, v) + v)) + w == Core(t) + (GapAfter(t, v) + (v + w));
  }

  /** Parsing starts with the left operand. */
  lemma LeftFirst(op: BinOp, s: State, off: bool, a: Effect, s2: State, d: nat)
    requires d <= MAX_DEPTH && Good(s) && Good(s2) && s2.cur == Op(op)
    requires Begin(LeftLevel(op), s, off, d) == Outcome(LeftLevel(op), a, s2, d)
    ensures Begin(Level(op), s, off, d) == Outcome(Level(op), a, s2, d)
  {
    hide ReadTok, ExpBin, BinLoop, PowerLoop, Exp1, QuietFrom, QuietAt, QuietEnv, Quiet;
    if op == Power && ReadTok(s, d).Ok? { StepUp(13, Muffle(ReadTok(s, d).value, off), d); }
  }

  lemma {:induction false} BinReads(op: BinOp, l: Tree, r: Tree, off: bool, s: State, h: Held,
                                    t: Tok, w: string, d: nat)
      returns (s1: State)
    requires Ready(s, h, d) && Legal(l, h) && Legal(r, h) && Follows(t, w)
    requires TokLevel(t) <= Limit(Level(op))
    requires Ahead(s, Bare(Bin(op, l, r)) + Then(t, w))
    ensures Landed(Muffle(s, off), s1, t, w, RunAt(Bin(op, l, r), s, off, h, d))
    ensures Begin(Level(op), s, off, d) == Outcome(Level(op), RunAt(Bin(op, l, r), s, off, h, d), s1, d)
    decreases Bin(op, l, r), 1
  {
    hide ReadTok, Print, Bare, Holds, Known, Legal, QuietFrom, QuietAt, QuietEnv, Quiet, SkipWhite, Ahead, Follows;
    hide Then, Parse, Rest, LeftLevel, RightLevel, Limit, Level, TokLevel, Combine, Muffle, Begin, Skips, Run, Landed;
    RunBin(op, l, r, s, off, h, d);
    var u := Print(r, RightLevel(op)) + Then(t, w);
    BinText(op, l, r, Then(t, w), h);
    Levels(op);
    var s2 := Reads(l, LeftLevel(op), off, s, h, Op(op), u, d);
    var r1 := RunAt(l, s, off, h, d);
    Here(Muffle(s, off), s2, Op(op), u, r1);
    LeftFirst(op, s, off, r1, s2, d);
    if r1.Err? {
      s1 := NoValue(Muffle(s, off), s, t, w, Level(op), r1.env, d);
    } else {
      Onward(l, s, off, s2, Op(op), u, h, d);
      s1 := RightReads(op, r1.value.0, r, s2, h, t, w, d);
      LandedFrom(Muffle(s, off), s2, s1, t, w, RunAt(Bin(op, l, r), s, off, h, d));
    }
  }

  lemma {:induction false} RightReads(op: BinOp, a: int, r: Tree, s: State, h: Held, t: Tok,
      w: string, d: nat)
      returns (s1: State)
    requires Ready(s, h, d) && s.cur == Op(op) && Legal(r, h)
    requires Follows(t, w) && TokLevel(t) <= Limit(Level(op)) && Ahead(s, Print(r, RightLevel(op)) + Then(t, w))
    ensures var c := Combine(op, a, Run(r, s.env, s.noeval == 0 && !Skips(op, a), h, d));
            Landed(s, s1, t, w, c) && Rest(Level(op), a, s, d) == Outcome(Level(op), c, s1, d)
    decreases r, 6
  {
    hide ReadTok, Print, Holds, Known, Legal, QuietFrom, QuietAt, QuietEnv, Quiet, SkipWhite, Ahead, Follows;
    hide Then, Parse, Rest, RightLevel, Limit, Level, TokLevel, Binary, Begin, Skips;
    Levels(op);
    MuffleAhead(s, Print(r, RightLevel(op)) + Then(t, w), Skips(op, a));
    var s2 := Muffle(s, Skips(op, a));
    var s3 := Reads(r, RightLevel(op), false, s2, h, t, w, d);
    s1 := AfterRight(op, a, s3);
    BinStep(op, a, s, RunAt(r, s2, false, h, d), s3, d);
    if RunAt(r, s2, false, h, d).Ok? { SameAhead(s3, s1, w); }
  }

  lemma {:induction false} SeqReads(l: Tree, r: Tree, off: bool, s: State, h: Held, t: Tok,
      w: string, d: nat)
      returns (s1: State)
    requires Ready(s, h, d) && Legal(l, h) && Legal(r, h) && Follows(t, w) && TokLevel(t) <= 0
    requires Ahead(s, Bare(Seq(l, r)) + Then(t, w))
    ensures Landed(Muffle(s, off), s1, t, w, RunAt(Seq(l, r), s, off, h, d))
    ensures Begin(0, s, off, d) == Outcome(0, RunAt(Seq(l, r), s, off, h, d), s1, d)
    decreases Seq(l, r), 1
  {
    hide ReadTok, Print, Bare, Holds, Known, Legal, QuietFrom, QuietAt, QuietEnv, Quiet, SkipWhite, Ahead, Follows;
    hide Then, Parse, Rest, Begin, Muffle, Run;
    RunSeq(l, r, s, off, h, d);
    var u := Print(r, 1) + Then(t, w);
    SeqText(l, r, Then(t, w), h);
    var s2 := Reads(l, 0, off, s, h, Comma, u, d);
    var r1 := RunAt(l, s, off, h, d);
    if r1.Err? {
      s1 := s.(cur := t);
    } else {
      RunHolds(l, s.env, Muffle(s, off).noeval == 0, h, d);
      s1 := Reads(r, 1, false, s2, h, t, w, d);
      NoMuffle(s2);
      CommaStep(r1.value.0, s2, RunAt(r, s2, false, h, d), s1, d);
    }
  }

  lemma {:induction false} RunSeq(l: Tree, r: Tree, s: State, off: bool, h: Held, d: nat)
    requires d <= MAX_DEPTH
    ensures RunAt(Seq(l, r), s, off, h, d)
         == match RunAt(l, s, off, h, d)
            case Err(env1) => Err(env1)
            case Ok((_, env1)) => Run(r, env1, Muffle(s, off).noeval == 0, h, d)
  {
    hide Muffle;
  }

  lemma NoMuffle(s: State)
    ensures Muffle(s, false) == s
  {
  }

  lemma {:induction false} SeqText(l: Tree, r: Tree, w: string, h: Held)
    requires Legal(r, h)
    ensures Bare(Seq(l, r)) + w == Print(l, 0) + Then(Comma, Print(r, 1) + w) && Follows(Comma, Print(r, 1) + w)
  {
    hide Print, Follows, Then;
    Marks(Print(r, 1) + w);
    OperandFollows(r, 1, w, h);
    Regroup(Print(l, 0), ",", Print(r, 1), w);
  }

  lemma CommaStep(a: int, s2: State, r: Effect, s3: State, d: nat)
    requires d <= MAX_DEPTH && Good(s2) && Good(s3) && s2.cur == Comma
    requires Begin(1, s2, false, d) == Outcome(1, r, s3, d)
    ensures Rest(0, a, s2, d) == Outcome(0, r, s3, d)
  {
    hide ReadTok, QuietFrom, QuietAt, QuietEnv, Quiet;
  }

  lemma {:induction false} TestReads(c: Tree, x: Tree, y: Tree, off: bool, s: State, h: Held,
                                     t: Tok, w: string, d: nat)
      returns (s1: State)
    requires Ready(s, h, d) && Legal(c, h) && Legal(x, h) && Legal(y, h)
    requires Follows(t, w) && TokLevel(t) <= 1 && Ahead(s, Bare(Test(c, x, y)) + Then(t, w))
    ensures Landed(Muffle(s, off), s1, t, w, RunAt(Test(c, x, y), s, off, h, d))
    ensures Begin(2, s, off, d) == Outcome(2, RunAt(Test(c, x, y), s, off, h, d), s1, d)
    decreases Test(c, x, y), 1
  {
    hide ReadTok, Print, Bare, Holds, Known, Legal, QuietFrom, QuietAt, QuietEnv, Quiet, SkipWhite, Ahead, Follows;
    hide Then, Parse, Rest, Begin, Muffle, Choose, Run, Arms;
    RunTest(c, x, y, s, off, h, d);
    var u := Print(y, 2) + Then(t, w);
    var m := Print(x, 0) + (Then(Col, u));
    TestText(c, x, y, Then(t, w));
    OperandFollows(x, 0, Then(Col, u), h);
    var s2 := Reads(c, 3, off, s, h, Ques, m, d);
    var r1 := RunAt(c, s, off, h, d);
    TestFirst(s, off, r1, s2, d);
    if r1.Err? {
      s1 := s.(cur := t);
    } else {
      RunHolds(c, s.env, Muffle(s, off).noeval == 0, h, d);
      s1 := ArmsRead(r1.value.0, c, x, y, s2, h, t, w, d);
    }
  }

  lemma RunTest(c: Tree, x: Tree, y: Tree, s: State, off: bool, h: Held, d: nat)
    requires d <= MAX_DEPTH
    ensures RunAt(Test(c, x, y), s, off, h, d)
         == match RunAt(c, s, off, h, d)
            case Err(env1) => Err(env1)
            case Ok((v, env1)) => Arms(v, x, y, env1, Muffle(s, off).noeval == 0, h, d)
  {
    hide Muffle, Choose;
  }

  lemma {:induction false} TestText(c: Tree, x: Tree, y: Tree, w: string)
    ensures Bare(Test(c, x, y)) + w
         == Print(c, 3) + Then(Ques, Print(x, 0) + Then(Col, Print(y, 2) + w))
  {
    hide Print, Then;
    Marks(Print(y, 2) + w);
    Marks(Print(x, 0) + (":" + (Print(y, 2) + w)));
    Regroup(Print(x, 0), ":", Print(y, 2), w);
    Regroup(Print(c, 3), "?", Print(x, 0) + (":" + Print(y, 2)), w);
  }

  lemma Marks(w: string)
    ensures Then(Ques, w) == "?" + w && Then(Col, w) == ":" + w && Then(Comma, w) == "," + w && Then(RPar, w) == ")" + w
  {
  }

  lemma {:induction false} OperandFollows(e: Tree, k: nat, w: string, h: Held)
    requires Legal(e, h)
    ensures Follows(Ques, Print(e, k) + w) && Follows(Col, Print(e, k) + w) && Follows(Comma, Print(e, k) + w)
  {
    PrintFair(e, k, h);
    hide Print;
  }

  lemma Regroup(a: string, b: string, c: string, d: string)
    ensures (a + (b + c)) + d == a + (b + (c + d))
  {
  }

  lemma TestFirst(s: State, off: bool, r: Effect, s2: State, d: nat)
    requires d <= MAX_DEPTH && Good(s) && Good(s2) && s2.cur == Ques
    requires Begin(3, s, off, d) == Outcome(3, r, s2, d)
    ensures Begin(2, s, off, d) == Outcome(2, r, s2, d)
  {
    hide ReadTok, CondRest, QuietFrom, QuietAt, QuietEnv, Quiet;
    if r.Ok? { RestStops(3, r.value.0, s2, d); }
  }

  /** The first token of a printed tree is neither the end nor a colon. */
  lemma {:induction false} Starts(e: Tree, k: nat, w: string, s: State, h: Held, d: nat)
    requires d <= MAX_DEPTH && Legal(e, h) && Ahead(s, Print(e, k) + w)
    ensures ReadTok(s, d).Ok? ==> ReadTok(s, d).value.cur != Eof && ReadTok(s, d).value.cur != Col
  {
    hide QuietFrom, QuietAt, QuietEnv, Quiet, SkipWhite, VariableRead, ReadOp, Print, NumChar, White;
    PrintFair(e, k, h);
    AtText(s, Print(e, k), w, 0);
    NotColon(s.text, Start(s), s.cur == Str);
  }

  lemma NotColon(text: string, i: nat, varBefore: bool)
    requires i < |text| && Starter(text[i])
    ensures ReadOp(text, i, varBefore).Some? ==> ReadOp(text, i, varBefore).value.0 != Col
  {
    hide SkipWhite;
  }

  /** Both arms, from the question mark on; the first token of each is read before assignments may be
      switched off for it. */
  lemma {:induction false} ArmsRead(v: int, c: Tree, x: Tree, y: Tree, s: State, h: Held,
                                    t: Tok, w: string, d: nat)
      returns (s1: State)
    requires Ready(s, h, d) && s.cur == Ques
    requires Legal(x, h) && Legal(y, h) && Follows(t, w) && TokLevel(t) <= 1
    requires Ahead(s, Print(x, 0) + Then(Col, Print(y, 2) + Then(t, w)))
    ensures var r := Arms(v, x, y, s.env, s.noeval == 0, h, d);
            Landed(s, s1, t, w, r) && Rest(2, v, s, d) == Outcome(2, r, s1, d)
    decreases Test(c, x, y), 0
  {
    hide ReadTok, Print, Holds, Known, Legal, QuietFrom, QuietAt, QuietEnv, Quiet, SkipWhite, Ahead, Follows;
    hide Then, Parse, Rest, Begin, Choose, ElseRest, Run, RunAt, Landed, Muffle, Unmuffle, Arms, Outcome;
    hide TokLevel, Limit, Past, NotUnary, Tight, Fair, Assigning, Prec, Ready, Good;
    ReadyGood(s, h, d);
    var u := Print(y, 2) + Then(t, w);
    OperandFollows(y, 2, Then(t, w), h);
    ColStops();
    var s3 := Reads(x, 0, v == 0, s, h, Col, u, d);
    Starts(x, 0, Then(Col, u), s, h, d);
    s1 := AfterArm(v, x, y, s, s3, h, t, w, d);
  }

  lemma ColStops()
    ensures TokLevel(Col) <= Limit(0)
  {
  }

  /** From the end of the first arm on. */
  lemma {:induction false} AfterArm(v: int, x: Tree, y: Tree, s: State, s3: State, h: Held,
                                    t: Tok, w: string, d: nat)
      returns (s1: State)
    requires Ready(s, h, d) && s.cur == Ques && Legal(y, h)
    requires Follows(t, w) && TokLevel(t) <= 1
    requires ReadTok(s, d).Ok? ==> ReadTok(s, d).value.cur != Eof && ReadTok(s, d).value.cur != Col
    requires Landed(Muffle(s, v == 0), s3, Col, Print(y, 2) + Then(t, w), RunAt(x, s, v == 0, h, d))
    requires Begin(0, s, v == 0, d) == Outcome(0, RunAt(x, s, v == 0, h, d), s3, d)
    ensures var r := Arms(v, x, y, s.env, s.noeval == 0, h, d);
            Landed(s, s1, t, w, r) && Rest(2, v, s, d) == Outcome(2, r, s1, d)
    decreases y, 8
  {
    hide ReadTok, Print, Holds, Known, Legal, QuietFrom, QuietAt, QuietEnv, Quiet, SkipWhite, Ahead, Follows;
    hide Then, Parse, Rest, Begin, Choose, ElseRest, Run, Landed, Muffle, Unmuffle, Outcome, Arms;
    var r1 := RunAt(x, s, v == 0, h, d);
    RunArms(v, x, y, s, h, d);
    Here(Muffle(s, v == 0), s3, Col, Print(y, 2) + Then(t, w), r1);
    if r1.Err? {
      s1 := FirstArmFails(v, s, r1, s3, t, w, d);
    } else {
      RunHolds(x, s.env, Muffle(s, v == 0).noeval == 0, h, d);
      FirstArm(v, s, r1, s3, d);
      s1 := SecondArm(v, r1.value.0, y, s, s3, h, t, w, d);
    }
  }

  /** Assignments are switched back on between the arms. */
  lemma {:induction false} SecondArm(v: int, a: int, y: Tree, s: State, s3: State, h: Held,
                                     t: Tok, w: string, d: nat)
      returns (s1: State)
    requires Ready(s3, h, d) && s3.cur == Col && Legal(y, h)
    requires s3.text == s.text && s3.noeval == Muffle(s, v == 0).noeval
    requires Follows(t, w) && TokLevel(t) <= 1 && Ahead(s3, Print(y, 2) + Then(t, w))
    ensures var r := Choose(v, a, Run(y, s3.env, s.noeval == 0 && v == 0, h, d));
            Landed(s, s1, t, w, r) && ElseRest(v, a, Unmuffle(s3, v == 0), d) == Outcome(2, r, s1, d)
    decreases y, 7
  {
    hide ReadTok, Print, Holds, Known, Legal, QuietFrom, QuietAt, QuietEnv, Quiet, SkipWhite, Ahead, Follows;
    hide Then, Parse, Rest, Begin, Choose, ElseRest, Run, Landed, Muffle, Unmuffle;
    UnmuffleBack(s, s3, Print(y, 2) + Then(t, w), v == 0);
    var s4 := Unmuffle(s3, v == 0);
    s1 := ElseReads(v, a, y, s4, h, t, w, d);
    LandedFrom(s, s4, s1, t, w, Choose(v, a, Run(y, s4.env, s4.noeval == 0 && v == 0, h, d)));
  }

  lemma RunArms(v: int, x: Tree, y: Tree, s: State, h: Held, d: nat)
    requires d <= MAX_DEPTH
    ensures Arms(v, x, y, s.env, s.noeval == 0, h, d)
         == match RunAt(x, s, v == 0, h, d)
            case Err(env1) => Err(env1)
            case Ok((a, env1)) => Choose(v, a, Run(y, env1, s.noeval == 0 && v == 0, h, d))
    ensures RunAt(x, s, v == 0, h, d) == Run(x, s.env, Muffle(s, v == 0).noeval == 0, h, d)
  {
    hide Run, Choose;
  }

  /** What both arms do, given the value of the condition. */
  function Arms(v: int, x: Tree, y: Tree, env: Env, on: bool, h: Held, d: nat): Effect
    requires d <= MAX_DEPTH
  {
    match Run(x, env, on && v != 0, h, d)
    case Err(env1) => Err(env1)
    case Ok((a, env1)) => Choose(v, a, Run(y, env1, on && v == 0, h, d))
  }

  lemma FirstArmFails(v: int, s: State, r: Effect, s3: State, t: Tok, w: string, d: nat) returns (s1: State)
    requires d <= MAX_DEPTH && Good(s) && Good(s3) && s.cur == Ques && r.Err?
    requires ReadTok(s, d).Ok? ==> ReadTok(s, d).value.cur != Eof && ReadTok(s, d).value.cur != Col
    requires Begin(0, s, v == 0, d) == Outcome(0, r, s3, d)
    ensures Landed(s, s1, t, w, r) && Rest(2, v, s, d) == Outcome(2, r, s1, d)
  {
    hide ReadTok, ElseRest, QuietFrom, QuietAt, QuietEnv, Quiet;
    s1 := s.(cur := t);
  }

  lemma {:induction false} FirstArm(v: int, s: State, r: Effect, s3: State, d: nat)
    requires d <= MAX_DEPTH && Good(s) && Good(s3) && s.cur == Ques && s3.cur == Col && r.Ok?
    requires ReadTok(s, d).Ok? ==> ReadTok(s, d).value.cur != Eof && ReadTok(s, d).value.cur != Col
    requires Begin(0, s, v == 0, d) == Outcome(0, r, s3, d)
    ensures Rest(2, v, s, d) == ElseRest(v, r.value.0, Unmuffle(s3, v == 0), d)
  {
    hide ReadTok, ElseRest, QuietFrom, QuietAt, QuietEnv, Quiet;
    RestStops(0, r.value.0, s3, d);
  }

  lemma {:induction false} ElseReads(v: int, a: int, y: Tree, s: State, h: Held, t: Tok, w: string, d: nat)
      returns (s1: State)
    requires Ready(s, h, d) && s.cur == Col && Legal(y, h)
    requires Follows(t, w) && TokLevel(t) <= 1 && Ahead(s, Print(y, 2) + Then(t, w))
    ensures var r := Choose(v, a, Run(y, s.env, s.noeval == 0 && v == 0, h, d));
            Landed(s, s1, t, w, r) && ElseRest(v, a, s, d) == Outcome(2, r, s1, d)
    decreases y, 6
  {
    hide ReadTok, Print, Holds, Known, Legal, QuietFrom, QuietAt, QuietEnv, Quiet, SkipWhite, Ahead, Follows;
    hide Then, Parse, Rest, Begin, ElseRest, Run, Landed, Muffle, Unmuffle, Choose, Outcome;
    var r, off := RunAt(y, s, v != 0, h, d), v != 0;
    var s2 := Reads(y, 2, off, s, h, t, w, d);
    Here(Muffle(s, off), s2, t, w, r);
    Starts(y, 2, Then(t, w), s, h, d);
    s1 := Unmuffle(s2, off).(last := Cond);
    ElseStep(v, a, s, r, s2, d);
    ElseLands(v, a, s, s2, t, w, r);
    assert Muffle(s, off).noeval == 0 <==> s.noeval == 0 && v == 0 by { MuffleOff(s, off); }
  }

  lemma MuffleOff(s: State, off: bool)
    ensures Muffle(s, off).noeval == 0 <==> s.noeval == 0 && !off
  {
  }

  lemma ElseLands(v: int, a: int, s: State, s2: State, t: Tok, w: string, r: Effect)
    requires Landed(Muffle(s, v != 0), s2, t, w, r)
    ensures Landed(s, Unmuffle(s2, v != 0).(last := Cond), t, w, Choose(v, a, r))
  {
    if r.Ok? { SameAhead(s2, Unmuffle(s2, v != 0).(last := Cond), w); }
    hide Ahead;
  }

  lemma ElseStep(v: int, a: int, s: State, r: Effect, s2: State, d: nat)
    requires d <= MAX_DEPTH && Good(s) && Good(s2) && s.cur == Col && TokLevel(s2.cur) <= 1
    requires ReadTok(s, d).Ok? ==> ReadTok(s, d).value.cur != Eof
    requires Begin(2, s, v != 0, d) == Outcome(2, r, s2, d)
    ensures ElseRest(v, a, s, d) == Outcome(2, Choose(v, a, r), Unmuffle(s2, v != 0).(last := Cond), d)
  {
    hide ReadTok, QuietFrom, QuietAt, QuietEnv, Quiet;
    if r.Ok? { RestStops(2, r.value.0, s2, d); }
    RestStops(2, v, Unmuffle(s2, v != 0).(last := Cond), d);
  }

  // ---------- Assignments ----------

  /** A variable up to the assignment operator behind it. */
  lemma {:induction false} AssignHead(q: State, peek: State, s1: State, d: nat)
    requires Good(q) && q.cur == Str && d <= MAX_DEPTH && ReadTok(q.(tokstr := "", noeval := 1), d) == Ok(peek)
    requires peek.cur !in {PostInc, PostDec} && ReadTok(q.(env := peek.env, assignop := peek.assignop), d) == Ok(s1)
    requires Good(s1) && s1.cur in {Eq, OpAssign}
    ensures ExpCond(q, d) == Ok((q.tokval, s1))
  {
    hide ReadTok, QuietFrom, QuietAt, QuietEnv, Quiet;
    assert StepAfter(q, d) == Ok(q.(env := peek.env, assignop := peek.assignop));
    assert StrRest(q, d) == Ok((q.tokval, s1));
    Climb(2, 15, q, Ok((q.tokval, s1.env)), s1, d);
    RestStops(2, q.tokval, s1, d);
    assert Parse(2, q, d) == ExpCond(q, d);
  }

  /** From the assignment operator on. */
  lemma AssignTail(q: State, a: int, s2: State, x: string, r: Effect, s3: State, d: nat) returns (s1: State)
    requires Good(q) && Good(s2) && Good(s3) && d <= MAX_DEPTH && ExpCond(q, d) == Ok((a, s2))
    requires s2.cur in {Eq, OpAssign} && s2.last == Str && s2.tokstr == x
    requires Begin(1, s2, false, d) == Outcome(1, r, s3, d) && (r.Ok? ==> s3.env == r.value.1)
    ensures Good(s1) && s1 == s3.(env := s1.env, tokstr := "")
    ensures var c := Assigned(x, if s2.cur == Eq then r else Combine(s2.assignop, a, r), s3.noeval == 0);
            ExpAssign(q, d) == Outcome(1, c, s1, d) && (c.Ok? ==> r.Ok? && s1.env == c.value.1)
  {
    hide ReadTok, QuietFrom, QuietAt, QuietEnv, Quiet, Binary, ExpCond;
    var v := if s2.cur == Eq then r else Combine(s2.assignop, a, r);
    s1 := (if v.Ok? then Bind(s3, x, v.value.0) else s3).(tokstr := "");
    assert ExpAssign(q, d) == AssignRest(a, s2, d);
  }

  /** The right side of an assignment and what follows. */
  lemma {:induction false} AssignRight(x: string, a: Tree, q: State, v: int, s2: State, h: Held, t: Tok,
      w: string, d: nat)
      returns (s1: State)
    requires Good(q) && Ready(s2, h, d) && ExpCond(q, d) == Ok((v, s2)) && Legal(a, h)
    requires s2.cur in {Eq, OpAssign} && s2.last == Str && s2.tokstr == x
    requires Follows(t, w) && TokLevel(t) <= 1 && Ahead(s2, Print(a, 1) + Then(t, w))
    ensures var r := Run(a, s2.env, s2.noeval == 0, h, d);
            var c := Assigned(x, if s2.cur == Eq then r else Combine(s2.assignop, v, r), s2.noeval == 0);
            Landed(s2, s1, t, w, c) && ExpAssign(q, d) == Outcome(1, c, s1, d)
    decreases a, 6
  {
    hide ReadTok, Print, Holds, Known, Legal, QuietFrom, QuietAt, QuietEnv, Quiet, SkipWhite, Ahead, Follows, Then;
    hide Rest, Store, ExpCond, ExpAssign, Begin, Run, Combine;
    NoMuffle(s2);
    var r := RunAt(a, s2, false, h, d);
    var s3 := Reads(a, 1, false, s2, h, t, w, d);
    s1 := AssignTail(q, v, s2, x, r, s3, d);
    if r.Ok? { SameAhead(s3, s1, w); }
  }

  lemma {:induction false} SetReads(x: string, a: Tree, off: bool, s: State, h: Held, t: Tok,
      w: string, d: nat)
      returns (s1: State)
    requires Ready(s, h, d) && Identifier(x) && x in h.names && Legal(a, h) && Follows(t, w) && TokLevel(t) <= 1
    requires Ahead(s, Bare(Set(x, a)) + Then(t, w))
    ensures Landed(Muffle(s, off), s1, t, w, RunAt(Set(x, a), s, off, h, d))
    ensures Begin(1, s, off, d) == Outcome(1, RunAt(Set(x, a), s, off, h, d), s1, d)
    decreases Set(x, a), 1
  {
    hide ReadTok, Print, Bare, Holds, Known, Legal, QuietFrom, QuietAt, QuietEnv, Quiet, SkipWhite, Ahead, Follows;
    hide Then, Parse, Rest, Store, Identifier, EndsName, Start, Lookup, ExpCond, Fair, Tight;
    hide Run, Begin, Landed, Assigned, ExpAssign, Outcome;
    RunSet(x, a, s, off, h, d);
    var u := Print(a, 1) + Then(t, w);
    SetText(x, a, Then(t, w), h);
    var q, s2 := SetHead(x, off, s, h, u, d);
    s1 := AssignRight(x, a, q, q.tokval, s2, h, t, w, d);
    LandedFrom(Muffle(s, off), s2, s1, t, w, RunAt(Set(x, a), s, off, h, d));
  }

  lemma RunSet(x: string, a: Tree, s: State, off: bool, h: Held, d: nat)
    requires d <= MAX_DEPTH
    ensures RunAt(Set(x, a), s, off, h, d) == Assigned(x, RunAt(a, s, off, h, d), Muffle(s, off).noeval == 0)
  {
    hide Muffle, Assigned;
  }

  /** The variable and the equals sign of an assignment. */
  lemma SetHead(x: string, off: bool, s: State, h: Held, u: string, d: nat) returns (q: State, s2: State)
    requires Ready(s, h, d) && Identifier(x) && x in h.names && Fair(u) && Tight(u) && Ahead(s, x + ("=" + u))
    ensures Good(q) && Begin(1, s, off, d) == ExpAssign(q, d) && Good(s2) && ExpCond(q, d) == Ok((q.tokval, s2))
    ensures s2.cur == Eq && s2.last == Str && s2.tokstr == x && Ahead(s2, u)
    ensures s2.text == s.text && s2.env == s.env && s2.noeval == Muffle(s, off).noeval
  {
    hide ReadTok, Holds, Known, QuietFrom, QuietAt, QuietEnv, Quiet, SkipWhite, Ahead, Identifier;
    hide Start, Lookup, ExpCond, ExpAssign, Fair;
    SignEnds("=", u);
    NameRead(s, x, "=" + u, d);
    var peek := ReadEq(Peeking(s, x), u, d);
    var q0 := ReadTarget(s, x, "=" + u, peek, d);
    MuffleAhead(q0, "=" + u, off);
    q := Muffle(q0, off);
    SameAhead(q, q.(tokstr := "", noeval := 1), "=" + u);
    var peek1 := ReadEq(q.(tokstr := "", noeval := 1), u, d);
    s2 := ReadEq(q, u, d);
    assert q.(env := peek1.env, assignop := peek1.assignop) == q;
    AssignHead(q, peek1, s2, d);
  }

  lemma SignEnds(sign: string, u: string)
    requires sign != "" && !White(sign[0]) && !VarChar(sign[0]) && sign[0] != '['
    ensures EndsName(sign + u)
  {
  }

  lemma {:induction false} SetText(x: string, a: Tree, w: string, h: Held)
    requires Legal(a, h)
    ensures Bare(Set(x, a)) + w == x + ("=" + (Print(a, 1) + w))
    ensures Fair(Print(a, 1) + w) && Tight(Print(a, 1) + w)
  {
    PrintFair(a, 1, h);
    hide Print;
    Regroup(x, "=", Print(a, 1), w);
  }

  lemma {:induction false} UpdateReads(x: string, op: BinOp, a: Tree, off: bool, s: State, h: Held,
                                       t: Tok, w: string, d: nat)
      returns (s1: State)
    requires Ready(s, h, d) && Identifier(x) && x in h.names && HasAssignment(op) && Legal(a, h)
    requires Follows(t, w) && TokLevel(t) <= 1 && Ahead(s, Bare(Update(x, op, a)) + Then(t, w))
    ensures Landed(Muffle(s, off), s1, t, w, RunAt(Update(x, op, a), s, off, h, d))
    ensures Begin(1, s, off, d) == Outcome(1, RunAt(Update(x, op, a), s, off, h, d), s1, d)
    decreases Update(x, op, a), 1
  {
    hide ReadTok, Print, Bare, Holds, Known, Legal, QuietFrom, QuietAt, QuietEnv, Quiet, SkipWhite, Ahead, Follows;
    hide Then, Parse, Rest, Store, Identifier, EndsName, Start, Lookup, ExpCond, Fair, Tight, OpText;
    hide HasAssignment, Binary, Run, RunAt, Combine, Begin, Landed, Outcome, Past, Assigned, ExpAssign, Muffle;
    hide Ready, Good, Prec;
    ReadyGood(s, h, d);
    var u := Print(a, 1) + Then(t, w);
    UpdateText(x, op, a, Then(t, w), h);
    var q, s2 := UpdateHead(x, op, off, s, h, u, d);
    RunUpdate(x, op, a, s, off, h, d);
    assert RunAt(a, s, off, h, d) == Run(a, s.env, Muffle(s, off).noeval == 0, h, d) by { RunAtIs(a, s, off, h, d); }
    if Lookup(s.env, x, h, d).None? {
      s1 := NoValue(Muffle(s, off), s, t, w, 1, s.env, d);
    } else {
      s1 := AssignRight(x, a, q, q.tokval, s2, h, t, w, d);
      LandedFrom(Muffle(s, off), s2, s1, t, w, RunAt(Update(x, op, a), s, off, h, d));
    }
  }

  lemma {:induction false} RunAtIs(a: Tree, s: State, off: bool, h: Held, d: nat)
    requires d <= MAX_DEPTH
    ensures RunAt(a, s, off, h, d) == Run(a, s.env, Muffle(s, off).noeval == 0, h, d)
  {
    hide Run, Muffle;
  }

  lemma {:induction false} RunUpdate(x: string, op: BinOp, a: Tree, s: State, off: bool, h: Held, d: nat)
    requires d <= MAX_DEPTH
    ensures RunAt(Update(x, op, a), s, off, h, d)
         == match Lookup(s.env, x, h, d)
            case None => Err(s.env)
            case Some(v) => Assigned(x, Combine(op, v, RunAt(a, s, off, h, d)), Muffle(s, off).noeval == 0)
  {
    hide Muffle, Combine, Assigned;
  }

  /** The variable and the operator of an assignment. */
  lemma UpdateHead(x: string, op: BinOp, off: bool, s: State, h: Held, u: string, d: nat)
      returns (q: State, s2: State)
    requires Ready(s, h, d) && Identifier(x) && x in h.names && HasAssignment(op)
    requires Fair(u) && Tight(u) && Ahead(s, x + ((OpText(op) + "=") + u))
    ensures Lookup(s.env, x, h, d).None? ==> Begin(1, s, off, d) == Err(s.env)
    ensures Lookup(s.env, x, h, d).Some? ==>
      && Good(q) && Begin(1, s, off, d) == ExpAssign(q, d) && Good(s2) && ExpCond(q, d) == Ok((q.tokval, s2))
      && q.tokval == Lookup(s.env, x, h, d).value
      && Ready(s2, h, d) && s2.cur == OpAssign && s2.assignop == op && s2.last == Str && s2.tokstr == x && Ahead(s2, u)
      && s2.text == s.text && s2.env == s.env && s2.noeval == Muffle(s, off).noeval
  {
    hide ReadTok, Holds, Known, QuietFrom, QuietAt, QuietEnv, Quiet, SkipWhite, Ahead, Identifier;
    hide Start, Lookup, ExpCond, ExpAssign, Fair, Begin;
    hide EndsName, Tight;
    var sign := OpText(op) + "=";
    SignOf(op);
    SignEnds(sign, u);
    NameRead(s, x, sign + u, d);
    var peek := ReadUpdate(Peeking(s, x), op, u, d);
    var q0 := ReadVar(s, x, sign + u, h, peek, d);
    q, s2 := q0, q0;
    BeginAssign(s, q0, off, d);
    if Lookup(s.env, x, h, d).Some? {
      MuffleAhead(q0, sign + u, off);
      q := Muffle(q0, off);
      s2 := UpdateSign(q, op, sign, u, d);
    }
  }

  lemma {:induction false} BeginAssign(s: State, q: State, off: bool, d: nat)
    requires d <= MAX_DEPTH && Good(s)
    ensures ReadTok(s, d).Err? ==> Begin(1, s, off, d) == Err(ReadTok(s, d).env)
    ensures ReadTok(s, d) == Ok(q) ==> Good(q) && Begin(1, s, off, d) == ExpAssign(Muffle(q, off), d)
  {
    hide ReadTok, ExpAssign, QuietFrom, QuietAt, QuietEnv, Quiet;
  }

  lemma UpdateSign(q: State, op: BinOp, sign: string, u: string, d: nat) returns (s2: State)
    requires d <= MAX_DEPTH && HasAssignment(op) && sign == OpText(op) + "=" && Fair(u) && Tight(u)
    requires q.cur == Str && Ahead(q, sign + u)
    ensures Good(q) && ExpCond(q, d) == Ok((q.tokval, s2)) && Took(q, s2, OpAssign, u) && s2.assignop == op
  {
    hide ReadTok, QuietFrom, QuietAt, QuietEnv, Quiet, SkipWhite, Ahead, Start, ExpCond, Fair, Tight;
    SameAhead(q, q.(tokstr := "", noeval := 1), sign + u);
    var peek := ReadUpdate(q.(tokstr := "", noeval := 1), op, u, d);
    var q1 := q.(env := peek.env, assignop := peek.assignop);
    SameAhead(q, q1, sign + u);
    s2 := ReadUpdate(q1, op, u, d);
    AssignHead(q, peek, s2, d);
  }

  lemma SignOf(op: BinOp)
    requires HasAssignment(op)
    ensures var sign := OpText(op) + "="; !White(sign[0]) && !VarChar(sign[0]) && sign[0] != '['
  {
  }

  lemma {:induction false} UpdateText(x: string, op: BinOp, a: Tree, w: string, h: Held)
    requires Legal(a, h)
    ensures Bare(Update(x, op, a)) + w == x + ((OpText(op) + "=") + (Print(a, 1) + w))
    ensures Fair(Print(a, 1) + w) && Tight(Print(a, 1) + w)
  {
    PrintFair(a, 1, h);
    hide Print, OpText;
    Regroup(x, OpText(op) + "=", Print(a, 1), w);
  }

  // ---------- The whole text ----------

  /** What a text comes to, from what the parser makes of it. */
  lemma {:induction false} TextOutcome(text: string, env: Env, noeval: nat, op: BinOp, r: Effect, s1: State, d: nat)
    requires d < MAX_DEPTH && text != "" && Tight(text) && Good(s1) && s1.cur == Eof
    requires Begin(0, State(text, 0, Eof, Eof, op, "", 0, noeval, env), false, d + 1) == Outcome(0, r, s1, d + 1)
    requires r.Ok? ==> s1.env == r.value.1
    ensures Came(SubExpr(text, env, noeval, op, d), r)
  {
    hide ReadTok, QuietFrom, QuietAt, QuietEnv, Quiet, ExpComma;
    if r.Ok? { RestStops(0, r.value.0, s1, d + 1); }
    assert SkipWhite(text, 0) == 0;
  }

  /** A printed tree as a whole text, if the values of variables one level down are known. */
  lemma {:induction false} TextRuns(e: Tree, h: Held, env: Env, noeval: nat, op: BinOp, d: nat)
    requires d < MAX_DEPTH && Legal(e, h) && Holds(env, h) && Known(h, d + 1)
    ensures Came(SubExpr(Print(e, 0), env, noeval, op, d), Run(e, env, noeval == 0, h, d + 1))
  {
    hide ReadTok, Run, Holds, Known, Legal, QuietFrom, QuietAt, QuietEnv, Quiet, Print, Then, Ahead, SubExpr, Parse;
    hide Outcome, SkipWhite, Landed, Begin, Came;
    var text := Print(e, 0);
    var s := State(text, 0, Eof, Eof, op, "", 0, noeval, env);
    PrintFair(e, 0, h);
    AtStart(text, env, noeval, op);
    FollowShape(Eof, "");
    assert text == text + "";
    var s1 := Reads(e, 0, false, s, h, Eof, "", d + 1);
    NoMuffle(s);
    Here(s, s1, Eof, "", Run(e, env, noeval == 0, h, d + 1));
    TextOutcome(text, env, noeval, op, Run(e, env, noeval == 0, h, d + 1), s1, d);
  }

  /** The value of a variable that holds the text of its tree. */
  lemma {:induction false} TreeHeld(s: State, h: Held, d: nat)
    requires d < MAX_DEPTH && Holds(s.env, h) && Known(h, d + 1) && s.tokstr in s.env && s.tokstr in h.trees
    requires s.env[s.tokstr] != "" && s.env[s.tokstr] == Print(h.trees[s.tokstr], 0)
    ensures Came(StrEval(s, d), Run(Var(s.tokstr), s.env, false, h, d))
  {
    hide SubExpr, Known, Print, QuietFrom, QuietAt, QuietEnv;
    var e := h.trees[s.tokstr];
    TextRuns(e, h, s.env, s.noeval, s.assignop, d);
    InertRuns(e, s.env, s.noeval == 0, h, d + 1);
  }

  /** Text that is not blank has no value below the last level. */
  lemma {:induction false} TooDeep(s: State, h: Held)
    requires Holds(s.env, h) && s.tokstr in h.names && s.tokstr in s.env && s.env[s.tokstr] != ""
    ensures Came(StrEval(s, MAX_DEPTH), Run(Var(s.tokstr), s.env, false, h, MAX_DEPTH))
  {
    hide Print, Itos, QuietFrom, QuietAt, QuietEnv;
    var text := s.env[s.tokstr];
    if s.tokstr in h.trees && text == Print(h.trees[s.tokstr], 0) {
      PrintFair(h.trees[s.tokstr], 0, h);
    } else {
      var n: int :| text == Itos(n);
      ItosTight(n);
    }
    assert SkipWhite(text, 0) == 0;
  }

  lemma ItosTight(n: int)
    ensures Tight(Itos(n))
  {
  }

  lemma {:induction false} ValueKnown(s: State, h: Held, d: nat)
    requires d <= MAX_DEPTH && s.tokstr in h.names && Holds(s.env, h) && (d < MAX_DEPTH ==> Known(h, d + 1))
    ensures Came(StrEval(s, d), Run(Var(s.tokstr), s.env, false, h, d))
  {
    hide SubExpr, Known, Print, QuietFrom, QuietAt, QuietEnv;
    var x := s.tokstr;
    if x !in s.env || s.env[x] == "" {
    } else if d == MAX_DEPTH {
      TooDeep(s, h);
    } else if x in h.trees && s.env[x] == Print(h.trees[x], 0) {
      TreeHeld(s, h, d);
    } else {
      var n: int :| s.env[x] == Itos(n);
      NumeralHeld(s, n, h, d);
    }
  }

  /** The value of a variable is the value of the tree that it holds, at every depth. */
  lemma {:induction false} VariableValue(h: Held, d: nat)
    requires d <= MAX_DEPTH
    ensures Known(h, d)
    decreases MAX_DEPTH - d
  {
    hide StrEval, Run, Holds, Came;
    if d < MAX_DEPTH { VariableValue(h, d + 1); }
    forall s: State | s.tokstr in h.names && Holds(s.env, h)
      ensures Came(StrEval(s, d), Run(Var(s.tokstr), s.env, false, h, d))
    {
      ValueKnown(s, h, d);
    }
  }

  /** A printed tree as a whole text, at any depth, whether assignments are on or not. */
  lemma {:induction false} SubExprPrinted(e: Tree, h: Held, env: Env, noeval: nat, op: BinOp, d: nat)
    requires d < MAX_DEPTH && Legal(e, h) && Holds(env, h)
    ensures Came(SubExpr(Print(e, 0), env, noeval, op, d), Run(e, env, noeval == 0, h, d + 1))
  {
    hide SubExpr, Run, Holds, Known, Legal, Print, Came;
    VariableValue(h, d + 1);
    TextRuns(e, h, env, noeval, op, d);
  }

  /** The evaluator reads all of a printed tree, gives it its value, and leaves the variables as the tree
      does; it fails exactly if some part of the tree has no value. The variables of the tree must be
      unset, empty, or hold numerals or the text of trees that assign nothing, whose variables may do so
      in turn, in circles even; others may hold anything. */
  lemma {:induction false} EvalPrinted(e: Tree, h: Held, env: Env, op: BinOp)
    requires Legal(e, h) && Holds(env, h)
    ensures Eval(Print(e, 0), env, op) == Run(e, env, true, h, 1)
  {
    hide SubExpr, Run, Holds, Legal, Print;
    SubExprPrinted(e, h, env, 0, op, 0);
  }

  // ---------- Variables that refer to each other in a circle ----------

  /** The value of `x` is part of the value of `e`. */
  predicate Uses(e: Tree, x: string) {
    match e
    case Lit(_) => false
    case Paren(a) => Uses(a, x)
    case Var(y) => y == x
    case Pre(_, y) => y == x
    case Post(y, _) => y == x
    case Un(_, a) => Uses(a, x)
    case Bin(_, l, r) => Uses(l, x) || Uses(r, x)
    case Test(c, a, b) => Uses(c, x) || Uses(a, x) || Uses(b, x)
    case Set(_, a) => Uses(a, x)
    case Update(y, _, a) => y == x || Uses(a, x)
    case Seq(l, r) => Uses(l, x) || Uses(r, x)
  }

  lemma {:induction false} UsesFails(e: Tree, x: string, env: Env, on: bool, h: Held, d: nat)
    requires d <= MAX_DEPTH && Inert(e) && Uses(e, x) && Lookup(env, x, h, d) == None
    ensures Run(e, env, on, h, d) == Err(env)
    decreases e
  {
    hide Lookup, Binary;
    match e
    case Var(_) =>
    case Paren(a) => UsesFails(a, x, env, on, h, d);
    case Un(_, a) => UsesFails(a, x, env, on, h, d);
    case Bin(op, l, r) =>
      InertRuns(l, env, on, h, d);
      var a := Run(l, env, on, h, d);
      if Uses(l, x) {
        UsesFails(l, x, env, on, h, d);
      } else if a.Ok? {
        UsesFails(r, x, env, on && !Skips(op, a.value.0), h, d);
      }
    case Test(c, a, b) =>
      InertRuns(c, env, on, h, d);
      var v := Run(c, env, on, h, d);
      if Uses(c, x) {
        UsesFails(c, x, env, on, h, d);
      } else if v.Ok? {
        InertRuns(a, env, on && v.value.0 != 0, h, d);
        if Uses(a, x) {
          UsesFails(a, x, env, on && v.value.0 != 0, h, d);
        } else {
          UsesFails(b, x, env, on && v.value.0 == 0, h, d);
        }
      }
    case Seq(l, r) =>
      InertRuns(l, env, on, h, d);
      if Uses(l, x) { UsesFails(l, x, env, on, h, d); } else { UsesFails(r, x, env, on, h, d); }
  }

  /** Each variable of the circle holds the text of a tree that uses the next one. */
  ghost predicate Circle(next: map<string, string>, env: Env, h: Held) {
    forall x {:trigger next[x]} :: x in next ==>
      && x in env && env[x] != "" && x in h.trees && Inert(h.trees[x]) && env[x] == Print(h.trees[x], 0)
      && next[x] in next && Uses(h.trees[x], next[x])
  }

  /** Then none of them has a value: the nesting comes to its limit. */
  lemma {:induction false} CircleFails(next: map<string, string>, x: string, env: Env, h: Held, d: nat)
    requires d <= MAX_DEPTH && Circle(next, env, h) && x in next
    ensures Lookup(env, x, h, d) == None
    decreases MAX_DEPTH - d
  {
    hide Print, Run, Inert, Uses, Lookup;
    var y := next[x];
    if d < MAX_DEPTH {
      CircleFails(next, y, env, h, d + 1);
      UsesFails(h.trees[x], y, env, false, h, d + 1);
    }
    LookupText(x, env, h, d);
  }

  lemma {:induction false} LookupText(x: string, env: Env, h: Held, d: nat)
    requires d <= MAX_DEPTH && x in env && env[x] != "" && x in h.trees && env[x] == Print(h.trees[x], 0)
    ensures Lookup(env, x, h, d) == if d == MAX_DEPTH then None else ValueOf(Run(h.trees[x], env, false, h, d + 1))
  {
    hide Print, Run;
  }

  /** An expression that assigns nothing and uses one of them fails. */
  lemma {:induction false} CircularText(e: Tree, x: string, next: map<string, string>, h: Held, env: Env, op: BinOp)
    requires Legal(e, h) && Holds(env, h) && Circle(next, env, h) && x in next && Inert(e) && Uses(e, x)
    ensures Eval(Print(e, 0), env, op) == Err(env)
  {
    hide Eval, Run, Holds, Legal, Print, Inert, Uses, Circle, Lookup;
    CircleFails(next, x, env, h, 1);
    UsesFails(e, x, env, true, h, 1);
    EvalPrinted(e, h, env, op);
  }

  // ---------- Variables that refer to each other in a row ----------

  /** Each variable holds the name of the next one, and the last one a number. */
  ghost predicate Row(names: seq<string>, env: Env, v: int) {
    && names != [] && (forall i :: 0 <= i < |names| ==> Identifier(names[i]) && names[i] in env)
    && (forall i :: 0 <= i < |names| - 1 ==> env[names[i]] == names[i + 1])
    && env[names[|names| - 1]] == Itos(v)
  }

  function RowHeld(names: seq<string>, env: Env): Held {
    Held(set i | 0 <= i < |names| :: names[i],
         map x | x in env && Identifier(env[x]) && env[x] in names :: Var(env[x]))
  }

  lemma NoIdentifier(v: int)
    ensures !Identifier(Itos(v)) && Itos(v) != ""
  {
    assert Itos(v)[0] == '-' || IsDigit(Itos(v)[0]);
  }

  lemma RowHolds(names: seq<string>, env: Env, v: int)
    requires Row(names, env, v)
    ensures Holds(env, RowHeld(names, env))
  {
    hide Itos, Identifier;
    var h := RowHeld(names, env);
    forall x | x in h.names && x in env && env[x] != ""
      ensures IsNumeral(env[x]) || (x in h.trees && env[x] == Print(h.trees[x], 0))
    {
      var i :| 0 <= i < |names| && names[i] == x;
      if i < |names| - 1 { assert env[x] == names[i + 1]; }
    }
  }

  /** As long as the nesting stays below its limit, the last number comes out. */
  lemma {:induction false} RowValue(names: seq<string>, i: nat, env: Env, v: int, d: nat)
    requires Row(names, env, v) && i < |names| && d <= 1024
    ensures Lookup(env, names[i], RowHeld(names, env), d) == if |names| - 1 - i + d < 1024 then Some(v) else None
    decreases |names| - i
  {
    hide Itos, Identifier, NumeralValue;
    var h := RowHeld(names, env);
    if i == |names| - 1 {
      NoIdentifier(v);
      ItosValue(v);
      assert names[i] !in h.trees;
    } else {
      assert env[names[i]] == names[i + 1];
      assert Identifier(names[i + 1]) && names[i + 1] != "" by { IdentifierVisible(names[i + 1]); }
      assert h.trees[names[i]] == Var(names[i + 1]) && Print(Var(names[i + 1]), 0) == names[i + 1];
      LookupText(names[i], env, h, d);
      if d < 1024 { RowValue(names, i + 1, env, v, d + 1); }
    }
  }

  lemma IdentifierVisible(x: string)
    requires Identifier(x)
    ensures x != ""
  {
  }

  /** The first of 1023 variables in a row has the value of the last one; with more of them, evaluating it
      is an error. */
  lemma NestingLimit(names: seq<string>, env: Env, v: int, op: BinOp)
    requires Row(names, env, v)
    ensures Eval(names[0], env, op) == if |names| <= 1023 then Ok((v, env)) else Err(env)
  {
    hide Eval, Holds, Row, Lookup, Identifier, RowHeld;
    var h := RowHeld(names, env);
    RowHolds(names, env, v);
    RowValue(names, 0, env, v, 1) by { RowStarts(names, env, v); }
    RowStarts(names, env, v);
    EvalPrinted(Var(names[0]), h, env, op);
  }

  lemma RowStarts(names: seq<string>, env: Env, v: int)
    requires Row(names, env, v)
    ensures names != [] && Identifier(names[0]) && names[0] in RowHeld(names, env).names
  {
    assert names[0] == names[0];
  }

  /** A client: the printed tree is evaluated in place. */
  method EvalTree(m: ExprMachine.Evaluator, e: Tree, h: Held) returns (v: int, valid: bool)
    requires m.stack == [] && Legal(e, h) && Holds(m.env, h)
    modifies m
    ensures match Run(e, old(m.env), true, h, 1)
      case Err(env') => !valid && v == 0 && m.env == env'
      case Ok((v', env')) => valid && v == v' && m.env == env'
    ensures m.stack == []
  {
    hide Run, Legal, Holds, Eval;
    EvalPrinted(e, h, m.env, m.assignop);
    v, valid := m.EvalExp(Print(e, 0));
  }
}
