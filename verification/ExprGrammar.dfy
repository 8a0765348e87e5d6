/** The language of shell arithmetic as it is documented: operators in groups of decreasing precedence,
    named by their spelling. Whatever is written in it means the tree that the groups give it
    (ipc/bash-4.2/expr.c). */
module ExprGrammar {
  import opened Common
  import opened Arithmetic
  import opened OperatorLaws
  import opened Expr
  import opened ExprTrees

  datatype Expression = Comma(init: Expression, last: Assignment) | Last(a: Assignment)

  datatype Assignment = Assign(x: string, sign: string, value: Assignment) | Plain(c: Conditional)

  datatype Conditional = Choice(test: Chain, yes: Expression, no: Conditional) | Just(chain: Chain)

  /** Operands with binary operators between them, in no particular order. */
  datatype Chain = Chain(first: Operand, rest: Links)

  datatype Links = Nil | Link(op: string, operand: Operand, rest: Links)

  datatype Operand =
    | Signed(sign: string, operand: Operand)
    | Number(text: string)
    | Name(x: string)
    | Before(step: string, x: string)
    | After(x: string, step: string)
    | Group(e: Expression)

  // ---------- Spelling ----------

  /** The group of a binary operator; later groups bind tighter. */
  function GroupOf(op: string): nat {
    if op == "||" then 0
    else if op == "&&" then 1
    else if op == "|" then 2
    else if op == "^" then 3
    else if op == "&" then 4
    else if op in {"==", "!="} then 5
    else if op in {"<=", ">=", "<", ">"} then 6
    else if op in {"<<", ">>"} then 7
    else if op in {"+", "-"} then 8
    else if op in {"*", "/", "%"} then 9
    else 10
  }

  function Operator(op: string): Option<BinOp> {
    if op == "||" then Some(Lor) else if op == "&&" then Some(Land)
    else if op == "|" then Some(Bor) else if op == "^" then Some(Bxor) else if op == "&" then Some(Band)
    else if op == "==" then Some(EqEq) else if op == "!=" then Some(Neq)
    else if op == "<=" then Some(Leq) else if op == ">=" then Some(Geq)
    else if op == "<" then Some(Lt) else if op == ">" then Some(Gt)
    else if op == "<<" then Some(Lsh) else if op == ">>" then Some(Rsh)
    else if op == "+" then Some(Plus) else if op == "-" then Some(Minus)
    else if op == "*" then Some(Mul) else if op == "/" then Some(Div) else if op == "%" then Some(Mod)
    else if op == "**" then Some(Power)
    else None
  }

  /** The operation of an assignment other than `=`. */
  function Assigning(sign: string): Option<BinOp> {
    if sign == "*=" then Some(Mul) else if sign == "/=" then Some(Div) else if sign == "%=" then Some(Mod)
    else if sign == "+=" then Some(Plus) else if sign == "-=" then Some(Minus)
    else if sign == "<<=" then Some(Lsh) else if sign == ">>=" then Some(Rsh)
    else if sign == "&=" then Some(Band) else if sign == "^=" then Some(Bxor) else if sign == "|=" then Some(Bor)
    else None
  }

  function Sign(sign: string): Option<UnOp> {
    if sign == "-" then Some(Neg) else if sign == "+" then Some(Pos)
    else if sign == "!" then Some(Not) else if sign == "~" then Some(BNot)
    else None
  }

  function Stepping(step: string): Option<Step> {
    if step == "++" then Some(Incr) else if step == "--" then Some(Decr) else None
  }

  // ---------- Text ----------

  /** An operator before some text. A blank keeps a plus or minus apart from the same sign. */
  function Joined(op: string, w: string): string {
    if op in {"+", "-"} && w != "" && w[0] == op[0] then op + (" " + w) else op + w
  }

  function Text(e: Expression): string {
    match e
    case Comma(init, last) => Text(init) + ("," + AssignmentText(last))
    case Last(a) => AssignmentText(a)
  }

  function AssignmentText(a: Assignment): string {
    match a
    case Assign(x, sign, value) => x + (sign + AssignmentText(value))
    case Plain(c) => ConditionalText(c)
  }

  function ConditionalText(c: Conditional): string {
    match c
    case Choice(test, yes, no) => ChainText(test) + ("?" + (Text(yes) + (":" + ConditionalText(no))))
    case Just(chain) => ChainText(chain)
  }

  function ChainText(c: Chain): string {
    OperandText(c.first) + LinksText(c.rest)
  }

  function LinksText(links: Links): string {
    match links
    case Nil => ""
    case Link(op, operand, rest) => Joined(op, OperandText(operand) + LinksText(rest))
  }

  function OperandText(u: Operand): string {
    match u
    case Signed(sign, operand) => Joined(sign, OperandText(operand))
    case Number(text) => text
    case Name(x) => x
    case Before(step, x) => step + x
    case After(x, step) => x + step
    case Group(e) => "(" + (Text(e) + ")")
  }

  // ---------- Meaning ----------

  /** The operator at `p` is applied last: it is of the first of the groups there are, and of those in this
      group the last one. Powers, which are the last group, are applied from the right. */
  predicate AppliedLast(rest: seq<(string, Tree)>, p: nat) {
    && p < |rest|
    && (forall i :: 0 <= i < |rest| ==> GroupOf(rest[p].0) <= GroupOf(rest[i].0))
    && (if GroupOf(rest[p].0) == 10 then p == 0
        else forall i :: p < i < |rest| ==> GroupOf(rest[p].0) < GroupOf(rest[i].0))
  }

  function LastApplied(rest: seq<(string, Tree)>): (p: nat)
    requires rest != []
    ensures AppliedLast(rest, p)
  {
    var n := |rest| - 1;
    if n == 0 then 0 else
      var p := LastApplied(rest[..n]);
      assert forall i :: 0 <= i < n ==> rest[..n][i] == rest[i];
      var g, g' := GroupOf(rest[p].0), GroupOf(rest[n].0);
      if g' < g || (g' == g && g < 10) then n else p
  }

  /** Operands and operators as a tree. */
  function Grouped(first: Tree, rest: seq<(string, Tree)>): Tree
    requires forall i :: 0 <= i < |rest| ==> Operator(rest[i].0).Some?
    decreases |rest|
  {
    if rest == [] then first else
      var p := LastApplied(rest);
      Bin(Operator(rest[p].0).value, Grouped(first, rest[..p]), Grouped(rest[p].1, rest[p + 1..]))
  }

  predicate Valid(e: Expression, h: Held) {
    match e
    case Comma(init, last) => Valid(init, h) && ValidAssignment(last, h)
    case Last(a) => ValidAssignment(a, h)
  }

  predicate ValidAssignment(a: Assignment, h: Held) {
    match a
    case Assign(x, sign, value) =>
      x in h.names && Identifier(x) && (sign == "=" || Assigning(sign).Some?) && ValidAssignment(value, h)
    case Plain(c) => ValidConditional(c, h)
  }

  predicate ValidConditional(c: Conditional, h: Held) {
    match c
    case Choice(test, yes, no) => ValidChain(test, h) && Valid(yes, h) && ValidConditional(no, h)
    case Just(chain) => ValidChain(chain, h)
  }

  predicate ValidChain(c: Chain, h: Held) {
    ValidOperand(c.first, h) && ValidLinks(c.rest, h)
  }

  predicate ValidLinks(links: Links, h: Held) {
    match links
    case Nil => true
    case Link(op, operand, rest) => Operator(op).Some? && ValidOperand(operand, h) && ValidLinks(rest, h)
  }

  predicate ValidOperand(u: Operand, h: Held) {
    match u
    case Signed(sign, operand) => Sign(sign).Some? && ValidOperand(operand, h)
    case Number(text) => IsNumber(text)
    case Name(x) => x in h.names && Identifier(x)
    case Before(step, x) => Stepping(step).Some? && x in h.names && Identifier(x)
    case After(x, step) => Stepping(step).Some? && x in h.names && Identifier(x)
    case Group(e) => Valid(e, h)
  }

  function Meaning(e: Expression, h: Held): (t: Tree)
    requires Valid(e, h)
    ensures Legal(t, h)
  {
    match e
    case Comma(init, last) => Seq(Meaning(init, h), AssignmentMeaning(last, h))
    case Last(a) => AssignmentMeaning(a, h)
  }

  function AssignmentMeaning(a: Assignment, h: Held): (t: Tree)
    requires ValidAssignment(a, h)
    ensures Legal(t, h) && Prec(t) >= 1
  {
    match a
    case Assign(x, sign, value) =>
      if sign == "=" then Set(x, AssignmentMeaning(value, h))
      else Update(x, Assigning(sign).value, AssignmentMeaning(value, h))
    case Plain(c) => ConditionalMeaning(c, h)
  }

  function ConditionalMeaning(c: Conditional, h: Held): (t: Tree)
    requires ValidConditional(c, h)
    ensures Legal(t, h) && Prec(t) >= 2
  {
    match c
    case Choice(test, yes, no) => Test(ChainMeaning(test, h), Meaning(yes, h), ConditionalMeaning(no, h))
    case Just(chain) => ChainMeaning(chain, h)
  }

  function ChainMeaning(c: Chain, h: Held): (t: Tree)
    requires ValidChain(c, h)
    ensures Legal(t, h) && Prec(t) >= 3
  {
    var first, rest := OperandMeaning(c.first, h), LinksMeaning(c.rest, h);
    GroupedShape(first, rest, h);
    Grouped(first, rest)
  }

  /** What a chain is made of: operands that bind tighter than any binary operator. */
  predicate Tight14(first: Tree, rest: seq<(string, Tree)>, h: Held) {
    && Legal(first, h) && Prec(first) >= 14
    && forall i :: 0 <= i < |rest| ==> Operator(rest[i].0).Some? && Legal(rest[i].1, h) && Prec(rest[i].1) >= 14
  }

  function LinksMeaning(links: Links, h: Held): (rest: seq<(string, Tree)>)
    requires ValidLinks(links, h)
    ensures forall i :: 0 <= i < |rest| ==>
      Operator(rest[i].0).Some? && Legal(rest[i].1, h) && Prec(rest[i].1) >= 14
  {
    match links
    case Nil => []
    case Link(op, operand, rest) => [(op, OperandMeaning(operand, h))] + LinksMeaning(rest, h)
  }

  function OperandMeaning(u: Operand, h: Held): (t: Tree)
    requires ValidOperand(u, h)
    ensures Legal(t, h) && Prec(t) >= 14
  {
    match u
    case Signed(sign, operand) => Un(Sign(sign).value, OperandMeaning(operand, h))
    case Number(text) => Lit(text)
    case Name(x) => Var(x)
    case Before(step, x) => Pre(Stepping(step).value, x)
    case After(x, step) => Post(x, Stepping(step).value)
    case Group(e) => Paren(Meaning(e, h))
  }

  // ---------- Groups and levels ----------

  /** The levels of the parser are the groups. */
  lemma LevelOf(op: string)
    requires Operator(op).Some?
    ensures Level(Operator(op).value) == GroupOf(op) + 3 && (op == "**" <==> GroupOf(op) == 10)
    ensures LeftLevel(Operator(op).value) == (if GroupOf(op) == 10 then 14 else GroupOf(op) + 3)
    ensures RightLevel(Operator(op).value) == (if GroupOf(op) == 10 then 13 else GroupOf(op) + 4)
  {
  }

  lemma {:induction false} GroupedShape(first: Tree, rest: seq<(string, Tree)>, h: Held)
    requires Tight14(first, rest, h)
    ensures Legal(Grouped(first, rest), h) && Prec(Grouped(first, rest)) >= 3
    decreases |rest|
  {
    hide Legal, Operator, GroupOf, LastApplied, Level, LeftLevel, RightLevel;
    if rest != [] {
      var p := LastApplied(rest);
      LevelOf(rest[p].0);
      TightParts(first, rest, p, h);
      GroupedShape(first, rest[..p], h);
      GroupedShape(rest[p].1, rest[p + 1..], h);
      BinLegal(Operator(rest[p].0).value, Grouped(first, rest[..p]), Grouped(rest[p].1, rest[p + 1..]), h);
    }
  }

  lemma {:induction false} BinLegal(op: BinOp, l: Tree, r: Tree, h: Held)
    requires Legal(l, h) && Legal(r, h)
    ensures Legal(Bin(op, l, r), h) && Prec(Bin(op, l, r)) == Level(op)
  {
  }

  lemma TightParts(first: Tree, rest: seq<(string, Tree)>, p: nat, h: Held)
    requires Tight14(first, rest, h) && p < |rest|
    ensures Tight14(first, rest[..p], h) && Tight14(rest[p].1, rest[p + 1..], h)
  {
    hide Legal, Operator, Prec;
  }

  /** Operands and operators one after the other. */
  function FlatRest(rest: seq<(string, Tree)>): string {
    if rest == [] then "" else Joined(rest[0].0, Bare(rest[0].1) + FlatRest(rest[1..]))
  }

  lemma JoinedAppend(op: string, v: string, w: string)
    requires v != ""
    ensures Joined(op, v) + w == Joined(op, v + w)
  {
  }

  lemma OperatorText(op: string)
    requires Operator(op).Some?
    ensures OpText(Operator(op).value) == op
  {
  }

  lemma JoinedIsThen(op: string, w: string)
    requires Operator(op).Some?
    ensures Joined(op, w) == Then(Op(Operator(op).value), w)
  {
    hide Operator, OpText;
    OperatorText(op);
    assert "" + w == w;
  }

  lemma {:induction false} BareVisible(e: Tree, h: Held)
    requires Legal(e, h)
    ensures Bare(e) != ""
  {
    PrintFair(e, 0, h);
  }

  /** The text splits at any operator. */
  lemma {:induction false} FlatSplit(rest: seq<(string, Tree)>, p: nat, h: Held)
    requires p < |rest| && forall i :: 0 <= i < |rest| ==> Legal(rest[i].1, h)
    ensures FlatRest(rest) == FlatRest(rest[..p]) + Joined(rest[p].0, Bare(rest[p].1) + FlatRest(rest[p + 1..]))
    decreases p
  {
    hide Bare, Joined, Legal;
    if p > 0 {
      var v := Bare(rest[0].1);
      BareVisible(rest[0].1, h);
      FlatSplit(rest[1..], p - 1, h);
      var last := Joined(rest[p].0, Bare(rest[p].1) + FlatRest(rest[p + 1..]));
      assert rest[1..][..p - 1] == rest[1..p] == rest[..p][1..] && rest[1..][p..] == rest[p + 1..];
      JoinedAppend(rest[0].0, v + FlatRest(rest[1..p]), last);
      assert v + (FlatRest(rest[1..p]) + last) == (v + FlatRest(rest[1..p])) + last;
    } else {
      assert FlatRest(rest[..0]) == "" && rest[1..] == rest[p + 1..];
    }
  }

  /** All operators are of a group that the parser reaches from level `k`. */
  predicate Fits(rest: seq<(string, Tree)>, k: int) {
    forall i :: 0 <= i < |rest| ==> k <= GroupOf(rest[i].0) + 3
  }

  /** The tree of a chain is printed without a parenthesis wherever its first group is expected. */
  lemma {:induction false} GroupedPrint(first: Tree, rest: seq<(string, Tree)>, k: nat, h: Held)
    requires Tight14(first, rest, h) && k <= 14 && Fits(rest, k)
    ensures Print(Grouped(first, rest), k) == Bare(first) + FlatRest(rest)
    decreases |rest|
  {
    hide Legal, Operator, GroupOf, LeftLevel, RightLevel, Level, LastApplied, FlatRest, Fits, Joined, Bare, Then;
    if rest == [] {
      assert FlatRest(rest) == "" by { FlatNone(); }
    } else {
      var p := LastApplied(rest);
      var op, right, after := rest[p].0, rest[p].1, rest[p + 1..];
      var o := Operator(op).value;
      LevelOf(op);
      LastGroup(op);
      AppliedAt(rest, p, k);
      TightParts(first, rest, p, h);
      GroupedPrint(first, rest[..p], LeftLevel(o), h);
      GroupedPrint(right, after, RightLevel(o), h);
      JoinedIsThen(op, Bare(right) + FlatRest(after));
      TightLegal(first, rest, h);
      FlatSplit(rest, p, h);
      BinPrint(o, Grouped(first, rest[..p]), Grouped(right, after), k);
      Regrouped(Bare(first), FlatRest(rest[..p]), Joined(op, Bare(right) + FlatRest(after)));
    }
  }

  lemma Regrouped(a: string, b: string, c: string)
    ensures (a + b) + c == a + (b + c)
  {
  }

  lemma {:induction false} TightLegal(first: Tree, rest: seq<(string, Tree)>, h: Held)
    requires Tight14(first, rest, h)
    ensures forall i :: 0 <= i < |rest| ==> Legal(rest[i].1, h)
  {
    hide Legal, Operator, Prec;
  }

  lemma {:induction false} BinPrint(op: BinOp, l: Tree, r: Tree, k: nat)
    requires k <= Level(op)
    ensures Print(Bin(op, l, r), k) == Print(l, LeftLevel(op)) + Then(Op(op), Print(r, RightLevel(op)))
  {
  }

  lemma FlatNone()
    ensures FlatRest([]) == ""
  {
  }

  /** Around the operator applied last. */
  lemma AppliedAt(rest: seq<(string, Tree)>, p: nat, k: nat)
    requires AppliedLast(rest, p) && Fits(rest, k)
    ensures var g := GroupOf(rest[p].0);
      && k <= g + 3 && Fits(rest[..p], if g == 10 then 14 else g + 3)
      && Fits(rest[p + 1..], if g == 10 then 13 else g + 4)
  {
    hide GroupOf;
    assert GroupOf(rest[p].0) <= 10 by { LastGroup(rest[p].0); }
  }

  lemma LastGroup(op: string)
    ensures GroupOf(op) <= 10
  {
  }

  // ---------- The text of the tree ----------

  lemma SignText(sign: string, w: string)
    requires Sign(sign).Some?
    ensures Joined(sign, w) == UnText(Sign(sign).value) + (Gap(UnText(Sign(sign).value), w) + w)
  {
    assert "" + w == w;
  }

  lemma StepSpelling(step: string)
    requires Stepping(step).Some?
    ensures StepText(Stepping(step).value) == step
  {
  }

  lemma AssigningText(sign: string)
    requires Assigning(sign).Some?
    ensures HasAssignment(Assigning(sign).value) && OpText(Assigning(sign).value) + "=" == sign
  {
  }

  /** Where a level is expected that the tree has, there are no parentheses. */
  lemma {:induction false} NoParens(t: Tree, k: nat)
    requires k <= Prec(t)
    ensures Print(t, k) == Bare(t)
  {
  }

  lemma {:induction false} TextMeant(e: Expression, h: Held)
    requires Valid(e, h)
    ensures Text(e) == Bare(Meaning(e, h))
    decreases e
  {
    match e
    case Comma(init, last) =>
      TextMeant(init, h);
      AssignmentMeant(last, h);
      NoParens(Meaning(init, h), 0);
      NoParens(AssignmentMeaning(last, h), 1);
    case Last(a) => AssignmentMeant(a, h);
  }

  lemma {:induction false} AssignmentMeant(a: Assignment, h: Held)
    requires ValidAssignment(a, h)
    ensures AssignmentText(a) == Bare(AssignmentMeaning(a, h))
    decreases a
  {
    match a
    case Assign(x, sign, value) =>
      AssignmentMeant(value, h);
      NoParens(AssignmentMeaning(value, h), 1);
      if sign != "=" { AssigningText(sign); }
    case Plain(c) => ConditionalMeant(c, h);
  }

  lemma {:induction false} ConditionalMeant(c: Conditional, h: Held)
    requires ValidConditional(c, h)
    ensures ConditionalText(c) == Bare(ConditionalMeaning(c, h))
    decreases c
  {
    match c
    case Choice(test, yes, no) =>
      ChainMeant(test, h);
      TextMeant(yes, h);
      ConditionalMeant(no, h);
      NoParens(ChainMeaning(test, h), 3);
      NoParens(Meaning(yes, h), 0);
      NoParens(ConditionalMeaning(no, h), 2);
    case Just(chain) => ChainMeant(chain, h);
  }

  lemma {:induction false} ChainMeant(c: Chain, h: Held)
    requires ValidChain(c, h)
    ensures ChainText(c) == Bare(ChainMeaning(c, h))
    decreases c
  {
    hide Bare, FlatRest, Grouped, Legal, Prec;
    var first, rest := OperandMeaning(c.first, h), LinksMeaning(c.rest, h);
    OperandMeant(c.first, h);
    LinksMeant(c.rest, h);
    ChainFits(rest);
    GroupedPrint(first, rest, 3, h);
    NoParens(ChainMeaning(c, h), 3);
  }

  lemma ChainFits(rest: seq<(string, Tree)>)
    ensures Fits(rest, 3)
  {
    hide GroupOf;
  }

  lemma {:induction false} LinksMeant(links: Links, h: Held)
    requires ValidLinks(links, h)
    ensures LinksText(links) == FlatRest(LinksMeaning(links, h))
    decreases links
  {
    hide Bare, Joined;
    match links
    case Nil =>
    case Link(op, operand, rest) =>
      OperandMeant(operand, h);
      LinksMeant(rest, h);
      assert LinksMeaning(links, h)[1..] == LinksMeaning(rest, h);
  }

  lemma {:induction false} OperandMeant(u: Operand, h: Held)
    requires ValidOperand(u, h)
    ensures OperandText(u) == Bare(OperandMeaning(u, h))
    decreases u
  {
    match u
    case Signed(sign, operand) =>
      OperandMeant(operand, h);
      NoParens(OperandMeaning(operand, h), 14);
      SignText(sign, OperandText(operand));
    case Number(_) =>
    case Name(_) =>
    case Before(step, _) => StepSpelling(step);
    case After(_, step) => StepSpelling(step);
    case Group(e) => TextMeant(e, h);
  }

  // ---------- The theorem ----------

  /** Whatever is written in the language evaluates as the tree that the groups of operators give it. */
  lemma {:induction false} EvalGrammar(e: Expression, h: Held, env: Env, op: BinOp)
    requires Valid(e, h) && Holds(env, h)
    ensures Eval(Text(e), env, op) == Run(Meaning(e, h), env, true, h, 1)
  {
    hide Eval, Run, Holds, Text, Meaning, Bare, Legal;
    TextMeant(e, h);
    NoParens(Meaning(e, h), 0);
    EvalPrinted(Meaning(e, h), h, env, op);
  }

  // ---------- Three numbers ----------

  function Apply(op: string, a: Option<int>, b: Option<int>): Option<int>
    requires Operator(op).Some?
  {
    if a == None || b == None then None else Binary(Operator(op).value, a.value, b.value)
  }

  /** Three numbers with two operators between them: the second operator comes first if its group binds
      tighter, or if both are powers. */
  lemma ThreeNumbers(a: string, p: string, b: string, q: string, c: string, env: Env, op: BinOp)
    requires IsNumber(a) && IsNumber(b) && IsNumber(c) && Operator(p).Some? && Operator(q).Some?
    ensures var v :=
        if GroupOf(p) < GroupOf(q) || (p == "**" && q == "**")
        then Apply(p, Strlong(a), Apply(q, Strlong(b), Strlong(c)))
        else Apply(q, Apply(p, Strlong(a), Strlong(b)), Strlong(c));
      Eval(a + p + b + q + c, env, op) == if v == None then Err(env) else Ok((v.value, env))
  {
    hide Eval, Strlong, Binary, IsNumber, Operator, GroupOf, Joined, Bare, Skips;
    var h := Held({}, map[]);
    var chain := Chain(Number(a), Link(p, Number(b), Link(q, Number(c), Nil)));
    var e := Last(Plain(Just(chain)));
    ThreeValid(a, p, b, q, c, h);
    EvalGrammar(e, h, env, op);
    NumbersText(a, p, b, q, c);
    var rest := [(p, Lit(b)), (q, Lit(c))];
    LevelOf(p);
    LevelOf(q);
    TwoApplied(rest);
    var t := Grouped(Lit(a), rest);
    assert Meaning(e, h) == t;
    if LastApplied(rest) == 0 {
      assert rest[..0] == [] && rest[1..] == [(q, Lit(c))];
      OneOperator(Lit(b), q, Lit(c));
      assert t == Bin(Operator(p).value, Lit(a), Bin(Operator(q).value, Lit(b), Lit(c)));
      PureRun(q, Lit(b), Lit(c), Strlong(b), Strlong(c), env, h);
      PureRun(p, Lit(a), Bin(Operator(q).value, Lit(b), Lit(c)), Strlong(a), Apply(q, Strlong(b), Strlong(c)), env, h);
    } else {
      assert rest[..1] == [(p, Lit(b))] && rest[2..] == [];
      OneOperator(Lit(a), p, Lit(b));
      assert t == Bin(Operator(q).value, Bin(Operator(p).value, Lit(a), Lit(b)), Lit(c));
      PureRun(p, Lit(a), Lit(b), Strlong(a), Strlong(b), env, h);
      PureRun(q, Bin(Operator(p).value, Lit(a), Lit(b)), Lit(c), Apply(p, Strlong(a), Strlong(b)), Strlong(c), env, h);
    }
  }

  /** Operands without effect. */
  lemma PureRun(op: string, l: Tree, r: Tree, a: Option<int>, b: Option<int>, env: Env, h: Held)
    requires Operator(op).Some?
    requires forall on {:trigger Run(l, env, on, h, 1)} :: Run(l, env, on, h, 1) == Fetch(a, env)
    requires forall on {:trigger Run(r, env, on, h, 1)} :: Run(r, env, on, h, 1) == Fetch(b, env)
    ensures forall on {:trigger Run(Bin(Operator(op).value, l, r), env, on, h, 1)} ::
      Run(Bin(Operator(op).value, l, r), env, on, h, 1) == Fetch(Apply(op, a, b), env)
  {
    hide Operator, Binary, Skips;
  }

  lemma {:induction false} ThreeValid(a: string, p: string, b: string, q: string, c: string, h: Held)
    requires IsNumber(a) && IsNumber(b) && IsNumber(c) && Operator(p).Some? && Operator(q).Some?
    ensures var chain := Chain(Number(a), Link(p, Number(b), Link(q, Number(c), Nil)));
      var e := Last(Plain(Just(chain)));
      Valid(e, h) && Text(e) == ChainText(chain) && Meaning(e, h) == Grouped(Lit(a), [(p, Lit(b)), (q, Lit(c))])
  {
    hide IsNumber, Operator, Grouped, ChainText;
    var last := Link(q, Number(c), Nil);
    var links := Link(p, Number(b), last);
    var chain := Chain(Number(a), links);
    assert ValidLinks(Nil, h) && ValidOperand(Number(c), h);
    assert ValidLinks(last, h) && ValidOperand(Number(b), h);
    assert ValidLinks(links, h) && ValidOperand(Number(a), h);
    assert ValidChain(chain, h);
    assert LinksMeaning(Nil, h) == [] && OperandMeaning(Number(c), h) == Lit(c);
    assert LinksMeaning(last, h) == [(q, Lit(c))] && OperandMeaning(Number(b), h) == Lit(b);
    assert LinksMeaning(links, h) == [(p, Lit(b)), (q, Lit(c))] && OperandMeaning(Number(a), h) == Lit(a);
    JustChain(chain, h);
  }

  /** An expression that is only a chain. */
  lemma {:induction false} JustChain(c: Chain, h: Held)
    requires ValidChain(c, h)
    ensures var e := Last(Plain(Just(c))); Valid(e, h) && Text(e) == ChainText(c) && Meaning(e, h) == ChainMeaning(c, h)
  {
    hide ValidChain, ChainText, ChainMeaning;
    assert ValidConditional(Just(c), h) && ValidAssignment(Plain(Just(c)), h);
    assert AssignmentText(Plain(Just(c))) == ConditionalText(Just(c)) == ChainText(c);
    assert AssignmentMeaning(Plain(Just(c)), h) == ConditionalMeaning(Just(c), h) == ChainMeaning(c, h);
  }

  lemma {:induction false} OneOperator(a: Tree, op: string, b: Tree)
    requires Operator(op).Some?
    ensures Grouped(a, [(op, b)]) == Bin(Operator(op).value, a, b)
  {
    hide Operator;
    var rest := [(op, b)];
    assert LastApplied(rest) == 0 && rest[..0] == [] && rest[1..] == [];
  }

  lemma NumbersText(a: string, p: string, b: string, q: string, c: string)
    requires IsNumber(b) && IsNumber(c)
    ensures ChainText(Chain(Number(a), Link(p, Number(b), Link(q, Number(c), Nil)))) == a + p + b + q + c
  {
    var inner := Link(q, Number(c), Nil);
    assert LinksText(Nil) == "" && c + "" == c;
    assert LinksText(inner) == Joined(q, OperandText(Number(c)) + LinksText(Nil)) == q + c;
    assert LinksText(Link(p, Number(b), inner)) == Joined(p, OperandText(Number(b)) + (q + c)) == p + (b + (q + c));
  }

  lemma {:induction false} TwoApplied(rest: seq<(string, Tree)>)
    requires |rest| == 2
    ensures var g, g' := GroupOf(rest[0].0), GroupOf(rest[1].0);
            LastApplied(rest) == if g < g' || g == g' == 10 then 0 else 1
  {
    hide GroupOf;
    LastGroup(rest[0].0);
    LastGroup(rest[1].0);
    var p := LastApplied(rest);
    assert AppliedLast(rest, p);
    assert p == 0 ==> GroupOf(rest[0].0) <= GroupOf(rest[1].0);
    assert p == 1 ==> GroupOf(rest[1].0) <= GroupOf(rest[0].0);
  }

  // ---------- Texts outside the language ----------

  /** What a whole text comes to if its parser does not get to the end. */
  lemma TextFails(text: string, env: Env, op: BinOp, r: Effect, s1: State)
    requires text != "" && !White(text[0]) && Good(s1) && TokLevel(s1.cur) < 0 && (r.Err? || s1.cur != Eof)
    requires Begin(0, State(text, 0, Eof, Eof, op, "", 0, 0, env), false, 1) == Outcome(0, r, s1, 1)
    requires r.Ok? ==> s1.env == r.value.1
    ensures Eval(text, env, op) == Err(EnvAfter(r))
  {
    hide ReadTok, QuietFrom, QuietAt, QuietEnv, Quiet, ExpComma;
    if r.Ok? { RestStops(0, r.value.0, s1, 1); }
    assert SkipWhite(text, 0) == 0;
  }

  /** A close parenthesis too many is an error. */
  lemma {:induction false} StrayParen(e: Expression, h: Held, env: Env, op: BinOp)
    requires Valid(e, h) && Holds(env, h)
    ensures Eval(Text(e) + ")", env, op) == Err(EnvAfter(Run(Meaning(e, h), env, true, h, 1)))
  {
    hide ReadTok, Run, Holds, Known, Legal, QuietFrom, QuietAt, QuietEnv, Quiet, Print, Bare, Then, Ahead, SubExpr;
    hide Outcome, SkipWhite, Landed, Begin, Text, Meaning, Eval, White;
    var t, text := Meaning(e, h), Text(e) + ")";
    var s := State(text, 0, Eof, Eof, op, "", 0, 0, env);
    TextMeant(e, h);
    NoParens(t, 0);
    PrintFair(t, 0, h);
    Marks("");
    assert ")" + "" == ")";
    AtStart(text, env, 0, op);
    VariableValue(h, 1);
    var s1 := Reads(t, 0, false, s, h, RPar, "", 1);
    NoMuffle(s);
    Here(s, s1, RPar, "", Run(t, env, true, h, 1));
    FairVisible(text, Print(t, 0), ")");
    TextFails(text, env, op, Run(t, env, true, h, 1), s1);
  }

  lemma FairVisible(text: string, v: string, w: string)
    requires text == v + w && v != "" && Tight(v)
    ensures text != "" && !White(text[0]) && Tight(text)
  {
  }

  /** So is one that is missing. */
  lemma {:induction false} MissingParen(e: Expression, h: Held, env: Env, op: BinOp)
    requires Valid(e, h) && Holds(env, h)
    ensures Eval("(" + Text(e), env, op) == Err(EnvAfter(Run(Meaning(e, h), env, true, h, 1)))
  {
    hide ReadTok, Run, Holds, Known, Legal, QuietFrom, QuietAt, QuietEnv, Quiet, Print, Bare, Then, Ahead, SubExpr;
    hide Outcome, SkipWhite, Landed, Begin, Text, Meaning, Eval, Parse, Prec, Tight, Fair, White;
    var text := "(" + Text(e);
    var s := State(text, 0, Eof, Eof, op, "", 0, 0, env);
    OpenVisible(Text(e));
    AtStart(text, env, 0, op);
    var r := Run(Meaning(e, h), env, true, h, 1);
    var end := OpenFails(e, h, s);
    TextFails(text, env, op, Err(EnvAfter(r)), end);
  }

  lemma {:induction false} OpenVisible(w: string)
    ensures !White(("(" + w)[0]) && Tight("(" + w)
  {
  }

  /** From the open parenthesis to the end of the text. */
  lemma {:induction false} OpenFails(e: Expression, h: Held, s: State) returns (end: State)
    requires Good(s) && s.noeval == 0 && s.cur == Eof && s.last == Eof && Valid(e, h) && Holds(s.env, h)
    requires Ahead(s, "(" + Text(e))
    ensures var r := Err(EnvAfter(Run(Meaning(e, h), s.env, true, h, 1)));
            Good(end) && end.cur == Eof && Begin(0, s, false, 1) == Outcome(0, r, end, 1)
  {
    hide ReadTok, Run, Holds, Known, Legal, QuietFrom, QuietAt, QuietEnv, Quiet, Print, Bare, Then, Ahead;
    hide Outcome, SkipWhite, Landed, Begin, Text, Meaning, Parse, Prec;
    var t := Meaning(e, h);
    var r := Run(t, s.env, true, h, 1);
    TextMeant(e, h);
    NoParens(t, 0);
    PrintFair(t, 0, h);
    FollowShape(Eof, "");
    assert Text(e) == Print(t, 0) + "";
    VariableValue(h, 1);
    var q := ReadParen(s, Text(e), 1);
    var s2 := Reads(t, 0, false, q, h, Eof, "", 1);
    NoMuffle(q);
    Here(q, s2, Eof, "", r);
    end := q.(cur := Eof);
    OpenParen(q, r, s2, end, 1);
    BeginParen(s, q, 1);
    Rise(0, 15, s, false, Err(EnvAfter(r)), end, 1);
  }

  lemma OpenParen(q: State, r: Effect, s2: State, end: State, d: nat)
    requires d <= MAX_DEPTH && Good(q) && q.cur == LPar && Good(s2) && s2.cur == Eof && Good(end)
    requires Begin(0, q, false, d) == Outcome(0, r, s2, d) && (r.Ok? ==> s2.env == r.value.1)
    ensures Parse(15, q, d) == Outcome(15, Err(EnvAfter(r)), end, d) == Err(EnvAfter(r))
  {
    hide ReadTok, QuietFrom, QuietAt, QuietEnv, Quiet;
    if r.Ok? { RestStops(0, r.value.0, s2, d); }
  }

  lemma {:induction false} BeginParen(s: State, q: State, d: nat)
    requires d <= MAX_DEPTH && Good(s) && Good(q) && ReadTok(s, d) == Ok(q) && q.cur == LPar
    ensures Begin(15, s, false, d) == Parse(15, q, d) && NotUnary(s, d)
  {
    hide ReadTok, Parse, QuietFrom, QuietAt, QuietEnv, Quiet;
  }

  /** A number cannot be assigned to. */
  lemma NumberAssigned(n: string, w: string, env: Env, op: BinOp)
    requires IsNumber(n) && Fair(w)
    ensures Eval(n + "=" + w, env, op) == Err(env)
  {
    hide ReadTok, SkipWhite, QuietFrom, QuietAt, QuietEnv, Quiet, Ahead, SubExpr, Strlong, IsNumber, Eval, Begin;
    var text := n + "=" + w;
    var s := State(text, 0, Eof, Eof, op, "", 0, 0, env);
    NumberVisible(n, w);
    assert text == n + ("=" + w);
    AtStart(text, env, 0, op);
    var q := ReadLit(s, n, "=" + w, 1);
    if Strlong(n).None? {
      NoToken(s, 0, false, 1);
      TextFails(text, env, op, Err(env), s);
    } else {
      var s1 := ReadEq(q, w, 1);
      NumberAlone(q, s1, 1);
      ValueEq(s, q, q.tokval, s1, 1);
      TextFails(text, env, op, Err(env), s);
    }
  }

  lemma NumberVisible(n: string, w: string)
    requires IsNumber(n) && Fair(w)
    ensures var text := n + "=" + w; text != "" && !White(text[0]) && Tight(text)
    ensures Tight("=" + w) && !NumChar('=') && Tight(w)
  {
  }

  lemma {:induction false} ValueEq(s: State, q: State, v: int, s1: State, d: nat)
    requires d <= MAX_DEPTH && Good(s) && Good(q) && Good(s1) && ReadTok(s, d) == Ok(q) && UnaryOp(q.cur).None?
    requires Exp0(q, d) == Ok((v, s1)) && s1.cur == Eq && s1.last == Num
    ensures Begin(0, s, false, d) == Err(s1.env)
  {
    hide ReadTok, QuietFrom, QuietAt, QuietEnv, Quiet, Exp0;
    Climb(2, 15, q, Ok((v, s1.env)), s1, d);
    RestStops(2, v, s1, d);
    assert ExpAssign(q, d) == AssignRest(v, s1, d) == Err(s1.env);
    assert ExpComma(q, d) == Err(s1.env);
  }

  /** Nor can a variable with `++` or `--` before it, but it has got its new value by then. */
  lemma {:induction false} StepAssigned(step: Step, x: string, w: string, h: Held, env: Env, op: BinOp)
    requires Identifier(x) && x in h.names && Holds(env, h) && Fair(w) && Lookup(env, x, h, 1).Some?
    ensures Eval(StepText(step) + x + "=" + w, env, op)
         == Err(env[x := Itos(Lookup(env, x, h, 1).value + Delta(step))])
  {
    hide ReadTok, SkipWhite, QuietFrom, QuietAt, QuietEnv, Quiet, Ahead, SubExpr, Lookup, Holds, Known, Eval, Begin;
    hide Identifier, Exp0, StepText, Delta, Start, PreTok, UnaryOp, Itos, VarStart, Tight, Fair, White;
    var text, v := StepText(step) + x + "=" + w, "=" + w;
    var s := State(text, 0, Eof, Eof, op, "", 0, 0, env);
    NameStarts(x, v);
    StepVisible(step, x + v);
    assert text == StepText(step) + (x + v);
    AtStart(text, env, 0, op);
    VariableValue(h, 1);
    var q := ReadStep(s, step, x + v, 1);
    var s1 := StepToEq(q, step, x, w, h);
    ValueEq(s, q, Lookup(env, x, h, 1).value + Delta(step), s1, 1);
    TextFails(text, env, op, Err(s1.env), s);
  }

  /** From the `++` or `--` to the equals sign. */
  lemma {:induction false} StepToEq(q: State, step: Step, x: string, w: string, h: Held) returns (s1: State)
    requires Good(q) && q.cur == PreTok(step) && q.noeval == 0 && Identifier(x) && x in h.names && Fair(w)
    requires Holds(q.env, h) && Known(h, 1) && Lookup(q.env, x, h, 1).Some? && Ahead(q, x + ("=" + w))
    ensures var y := Lookup(q.env, x, h, 1).value + Delta(step);
            Exp0(q, 1) == Ok((y, s1)) && UnaryOp(q.cur).None? && s1.env == q.env[x := Itos(y)]
    ensures Good(s1) && s1.cur == Eq && s1.last == Num
  {
    hide ReadTok, SkipWhite, QuietFrom, QuietAt, QuietEnv, Quiet, Ahead, Lookup, Holds, Known;
    hide Identifier, Exp0, Delta, Start, PreTok, UnaryOp, Itos, VarStart, Tight, Fair, EndsName, Bind;
    var v := "=" + w;
    StepVisible(step, x + v);
    var q1 := q.(last := q.cur);
    SameAhead(q, q1, x + v);
    EqEnds(w);
    NameRead(q1, x, v, 1);
    var peek := ReadEq(Peeking(q1, x), w, 1);
    var q2 := ReadVar(q1, x, v, h, peek, 1);
    SteppedAhead(q2, x, q2.tokval + Delta(step), v);
    s1 := ReadEq(Stepped(q2, x, q2.tokval + Delta(step)), w, 1);
    SteppedOperand(q, step, q2, x, s1);
  }

  lemma {:induction false} SteppedOperand(q: State, step: Step, q2: State, x: string, s1: State)
    requires Good(q) && q.cur == PreTok(step) && ReadTok(q.(last := q.cur), 1) == Ok(q2) && q2.cur == Str
    requires q2.tokstr == x && Good(q2) && ReadTok(Stepped(q2, x, q2.tokval + Delta(step)), 1) == Ok(s1)
    ensures Exp0(q, 1) == Ok((q2.tokval + Delta(step), s1)) && UnaryOp(q.cur).None?
  {
    hide ReadTok, QuietFrom, QuietAt, QuietEnv, Quiet;
    PreOperand(q, step, 1);
  }

  lemma {:induction false} StepVisible(step: Step, v: string)
    ensures var text := StepText(step) + v; text != "" && !White(text[0]) && Tight(text)
    ensures PreTok(step) != OpAssign && !NoStep(PreTok(step))
  {
  }

  lemma EqEnds(w: string)
    requires Fair(w)
    ensures EndsName("=" + w) && Tight(w)
  {
  }

  /** Two signs that no name follows are two operators, unless a variable comes before them. */
  lemma DoubledSign(text: string, i: nat, j: nat)
    requires i + 1 < |text| && text[i] in {'+', '-'} && text[i + 1] == text[i]
    requires i + 2 <= j <= |text| && (forall k :: i + 2 <= k < j ==> text[k] in {' ', '\t', '\n'})
    requires j < |text| ==> !Letter(text[j]) && text[j] !in {' ', '\t', '\n'}
    ensures ReadOp(text, i, false) == Some((Op(if text[i] == '+' then Plus else Minus), 1, Plus))
    ensures ReadOp(text, i, true) == Some((if text[i] == '+' then PostInc else PostDec, 2, Plus))
  {
    SkipBlanks(text, i + 2, j);
  }

  lemma {:induction false} SkipBlanks(text: string, i: nat, j: nat)
    requires i <= j <= |text| && (forall k :: i <= k < j ==> text[k] in {' ', '\t', '\n'})
    requires j < |text| ==> text[j] !in {' ', '\t', '\n'}
    ensures SkipWhite(text, i) == j
    decreases j - i
  {
    if i < j { SkipBlanks(text, i + 1, j); }
  }

  /** A text of blanks is 0. */
  lemma BlankText(text: string, env: Env, op: BinOp)
    requires forall i :: 0 <= i < |text| ==> text[i] in {' ', '\t', '\n'}
    ensures Eval(text, env, op) == Ok((0, env))
  {
    AllWhite(text, 0);
  }

  lemma {:induction false} AllWhite(text: string, i: nat)
    requires i <= |text| && forall k :: i <= k < |text| ==> text[k] in {' ', '\t', '\n'}
    ensures SkipWhite(text, i) == |text|
    decreases |text| - i
  {
    if i < |text| { AllWhite(text, i + 1); }
  }
}
