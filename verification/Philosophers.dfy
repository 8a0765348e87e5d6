/** Philosophers who lock their two chopsticks one after the other: always the left one first
    (pthreads_dp/dining_philosophers.c), or in an order that depends on the parity of their number
    (pthreads_dp/dp_asymmetric.c).

    The step system covers any number `N >= 2` of philosophers, before and after `Stop`. That the
    main program finally unlocks every chopstick on behalf of its owner is not part of it. */
module Philosophers {
  import opened Common
  import opened Table
  import opened Ranking

  datatype Protocol = LeftFirst | ByParity

  datatype PC =
    | Head      // about to read Stop
    | Hungry    // about to lock the first chopstick
    | HasFirst  // about to lock the second one
    | Eating    // about to unlock the right one
    | Leaving   // about to unlock the left one
    | Exited

  /** `owner[c]` is the philosopher who has locked chopstick `c`. */
  datatype State = State(pc: seq<PC>, owner: seq<Option<nat>>, stop: bool)

  function First(pr: Protocol, N: nat, i: nat): (c: nat)
    requires i < N
    ensures c < N
  {
    if pr == LeftFirst || i % 2 == 0 then LeftChop(N, i) else RightChop(N, i)
  }

  function Second(pr: Protocol, N: nat, i: nat): (c: nat)
    requires i < N
    ensures c < N
  {
    if pr == LeftFirst || i % 2 == 0 then RightChop(N, i) else LeftChop(N, i)
  }

  predicate Shape(N: nat, s: State) {
    2 <= N == |s.pc| == |s.owner|
  }

  function Init(N: nat): State {
    State(seq(N, _ => Head), seq(N, _ => None), false)
  }

  predicate Enabled(pr: Protocol, N: nat, s: State, i: nat)
    requires Shape(N, s) && i < N
  {
    match s.pc[i]
    case Hungry => s.owner[First(pr, N, i)] == None
    case HasFirst => s.owner[Second(pr, N, i)] == None
    case Exited => false
    case _ => true
  }

  function Step(pr: Protocol, N: nat, s: State, i: nat): (s': State)
    requires Shape(N, s) && i < N && Enabled(pr, N, s, i)
    ensures Shape(N, s')
  {
    match s.pc[i]
    case Head => s.(pc := s.pc[i := if s.stop then Exited else Hungry])
    case Hungry => s.(pc := s.pc[i := HasFirst], owner := s.owner[First(pr, N, i) := Some(i)])
    case HasFirst => s.(pc := s.pc[i := Eating], owner := s.owner[Second(pr, N, i) := Some(i)])
    case Eating => s.(pc := s.pc[i := Leaving], owner := s.owner[RightChop(N, i) := None])
    case Leaving => s.(pc := s.pc[i := Head], owner := s.owner[LeftChop(N, i) := None])
  }

  /** Some philosopher takes a step, or the main program sets `Stop`. */
  ghost predicate Next(pr: Protocol, N: nat, s: State, s': State)
    requires Shape(N, s)
  {
    || s' == s.(stop := true)
    || exists i: nat :: i < N && Enabled(pr, N, s, i) && s' == Step(pr, N, s, i)
  }

  ghost predicate Run(pr: Protocol, N: nat, run: seq<State>) {
    && 2 <= N && run != [] && run[0] == Init(N)
    && forall n :: 0 <= n < |run| - 1 ==> Shape(N, run[n]) && Next(pr, N, run[n], run[n + 1])
  }

  /** Philosopher `i` has picked up chopstick `c` and not put it down. */
  predicate Has(pr: Protocol, N: nat, s: State, i: nat, c: nat)
    requires Shape(N, s) && i < N
  {
    match s.pc[i]
    case HasFirst => c == First(pr, N, i)
    case Eating => c == LeftChop(N, i) || c == RightChop(N, i)
    case Leaving => c == LeftChop(N, i)
    case _ => false
  }

  /** A chopstick is locked by `i` exactly when `i` has it; so no two philosophers have the same
      chopstick, and neighbours never eat together. */
  ghost predicate Inv(pr: Protocol, N: nat, s: State) {
    && Shape(N, s)
    && (forall c, i {:trigger Has(pr, N, s, i, c)} ::
          0 <= c < N && 0 <= i < N ==> (s.owner[c] == Some(i) <==> Has(pr, N, s, i, c)))
    && (forall c :: 0 <= c < N && s.owner[c].Some? ==> s.owner[c].value < N)
    && (!s.stop ==> forall i :: 0 <= i < N ==> s.pc[i] != Exited)
  }

  /** A step of philosopher `i`, seen from chopstick `c` and philosopher `j`. */
  lemma StepHas(pr: Protocol, N: nat, s: State, i: nat, c: nat, j: nat)
    requires Inv(pr, N, s) && i < N && Enabled(pr, N, s, i) && c < N && j < N
    ensures Step(pr, N, s, i).owner[c] == Some(j) <==> Has(pr, N, Step(pr, N, s, i), j, c)
  {
    assert s.owner[c] == Some(j) <==> Has(pr, N, s, j, c);
    assert s.owner[c] == Some(i) <==> Has(pr, N, s, i, c);
  }

  lemma StepInv(pr: Protocol, N: nat, s: State, i: nat)
    requires Inv(pr, N, s) && i < N && Enabled(pr, N, s, i)
    ensures Inv(pr, N, Step(pr, N, s, i))
  {
    hide Has;
    var s' := Step(pr, N, s, i);
    forall c, j {:trigger Has(pr, N, s', j, c)} | 0 <= c < N && 0 <= j < N
      ensures s'.owner[c] == Some(j) <==> Has(pr, N, s', j, c)
    {
      StepHas(pr, N, s, i, c, j);
    }
  }

  lemma StopInv(pr: Protocol, N: nat, s: State)
    requires Inv(pr, N, s)
    ensures Inv(pr, N, s.(stop := true))
  {
    var s' := s.(stop := true);
    forall c, i {:trigger Has(pr, N, s', i, c)} | 0 <= c < N && 0 <= i < N
      ensures s'.owner[c] == Some(i) <==> Has(pr, N, s', i, c)
    {
      assert s.owner[c] == Some(i) <==> Has(pr, N, s, i, c);
    }
  }

  lemma {:induction false} RunInv(pr: Protocol, N: nat, run: seq<State>)
    requires Run(pr, N, run)
    ensures Inv(pr, N, run[|run| - 1])
  {
    if |run| > 1 {
      var front := run[..|run| - 1];
      RunInv(pr, N, front);
      var n := |run| - 2;
      assert run[n] == front[n] && Next(pr, N, run[n], run[n + 1]);
      if run[n + 1] == run[n].(stop := true) {
        StopInv(pr, N, run[n]);
      } else {
        var i: nat :| i < N && Enabled(pr, N, run[n], i) && run[n + 1] == Step(pr, N, run[n], i);
        StepInv(pr, N, run[n], i);
      }
    }
  }

  /** In a reachable state neighbours do not eat at the same time. */
  lemma NeighboursDontEat(pr: Protocol, N: nat, run: seq<State>, i: nat)
    requires Run(pr, N, run) && i < N
    ensures var s := run[|run| - 1];
            Shape(N, s) && !(s.pc[i] == Eating && s.pc[LeftPhil(N, i)] == Eating)
  {
    RunInv(pr, N, run);
    SharedBy(N, i, LeftPhil(N, i));
    var s := run[|run| - 1];
    assert Has(pr, N, s, i, i) <==> s.owner[i] == Some(i);
    assert Has(pr, N, s, LeftPhil(N, i), i) <==> s.owner[i] == Some(LeftPhil(N, i));
  }

  /** The chopstick a philosopher has while it has only one. With left-then-right order it is the left
      one, which has the philosopher's own number; by parity, a philosopher with an odd number starts with
      the right one, whose number is one less. What is put down last is always the left one. */
  lemma OneChopstick(pr: Protocol, N: nat, run: seq<State>, i: nat)
    requires Run(pr, N, run) && i < N
    ensures var s := run[|run| - 1];
            && Shape(N, s)
            && (s.pc[i] == HasFirst ==>
                  forall c :: 0 <= c < N ==>
                    (s.owner[c] == Some(i) <==> c == if pr == ByParity && i % 2 == 1 then i - 1 else i))
            && (s.pc[i] == Leaving ==> forall c :: 0 <= c < N ==> (s.owner[c] == Some(i) <==> c == i))
  {
    RunInv(pr, N, run);
    var s := run[|run| - 1];
    forall c | 0 <= c < N ensures s.owner[c] == Some(i) <==> Has(pr, N, s, i, c) { }
  }

  ghost predicate Stuck(pr: Protocol, N: nat, s: State)
    requires Shape(N, s)
  {
    forall i :: 0 <= i < N ==> !Enabled(pr, N, s, i)
  }

  predicate AllExited(N: nat, s: State)
    requires Shape(N, s)
  {
    forall i :: 0 <= i < N ==> s.pc[i] == Exited
  }

  /** In a stuck state, whoever waits for a chopstick waits for one that somebody holds as the first
      of two. */
  lemma WaitsForFirst(pr: Protocol, N: nat, s: State, c: nat) returns (j: nat)
    requires Inv(pr, N, s) && Stuck(pr, N, s) && c < N && s.owner[c] != None
    ensures j < N && s.pc[j] == HasFirst && First(pr, N, j) == c
  {
    j := s.owner[c].value;
    assert Has(pr, N, s, j, c);
    assert !Enabled(pr, N, s, j);
  }

  // ---------- The parity order ----------

  /** With an odd second choice one waits for a chopstick that nobody holds as a first choice. */
  lemma OddSecondIsFree(N: nat, s: State, i: nat)
    requires Inv(ByParity, N, s) && Stuck(ByParity, N, s) && i < N && s.pc[i] == HasFirst
    ensures Second(ByParity, N, i) % 2 == 0
  {
    assert !Enabled(ByParity, N, s, i);
    var j := WaitsForFirst(ByParity, N, s, Second(ByParity, N, i));
  }

  /** No deadlock, before or after `Stop`: unless all have exited, somebody can take a step. */
  lemma ParityNeverStuck(N: nat, s: State)
    requires Inv(ByParity, N, s) && Stuck(ByParity, N, s)
    ensures AllExited(N, s)
  {
    forall i | 0 <= i < N ensures s.pc[i] != HasFirst {
      if s.pc[i] == HasFirst {
        // only philosopher 0 of an odd number has an even second choice, which is that of N - 1
        OddSecondIsFree(N, s, i);
        assert !Enabled(ByParity, N, s, i);
        var j := WaitsForFirst(ByParity, N, s, Second(ByParity, N, i));
        OddSecondIsFree(N, s, j);
      }
    }
    forall i | 0 <= i < N ensures s.pc[i] == Exited {
      assert !Enabled(ByParity, N, s, i);
      if s.pc[i] == Hungry {
        var j := WaitsForFirst(ByParity, N, s, First(ByParity, N, i));
      }
    }
  }

  lemma ParityDeadlockFree(N: nat, run: seq<State>)
    requires Run(ByParity, N, run)
    ensures Shape(N, run[|run| - 1])
    ensures !run[|run| - 1].stop ==> !Stuck(ByParity, N, run[|run| - 1])
    ensures Stuck(ByParity, N, run[|run| - 1]) ==> AllExited(N, run[|run| - 1])
  {
    RunInv(ByParity, N, run);
    var s := run[|run| - 1];
    if Stuck(ByParity, N, s) {
      ParityNeverStuck(N, s);
      assert s.pc[0] == Exited;
    }
  }

  // ---------- Progress: no livelock either ----------

  /** A part of a run, `Stop` included. */
  ghost predicate Window(pr: Protocol, N: nat, run: seq<State>) {
    && run != [] && Shape(N, run[0])
    && forall n :: 0 <= n < |run| - 1 ==> Shape(N, run[n]) && Next(pr, N, run[n], run[n + 1])
  }

  /** Somebody locks or unlocks a chopstick. */
  ghost predicate Operates(s: State, s': State) {
    exists i :: 0 <= i < |s.pc| == |s'.pc| && s.pc[i] in {Hungry, HasFirst, Eating, Leaving} && s'.pc[i] != s.pc[i]
  }

  /** The number of lock and unlock operations. */
  ghost function Operations(run: seq<State>): nat {
    if |run| <= 1 then 0 else
      Operations(run[..|run| - 1]) + if Operates(run[|run| - 2], run[|run| - 1]) then 1 else 0
  }

  /** Somebody completes the acquisition of a second chopstick. */
  ghost predicate Sits(s: State, s': State) {
    exists i :: 0 <= i < |s.pc| == |s'.pc| && s.pc[i] == HasFirst && s'.pc[i] == Eating
  }

  ghost predicate SomeoneEats(run: seq<State>) {
    exists n :: 0 <= n < |run| - 1 && Sits(run[n], run[n + 1])
  }

  /** How many lock and unlock operations a philosopher can do before the next second acquisition. */
  function Potential(pc: PC): nat {
    match pc
    case Eating => 3
    case Leaving => 2
    case Head => 1
    case Hungry => 1
    case _ => 0
  }

  lemma NextDecreases(pr: Protocol, N: nat, s: State, s': State)
    requires Shape(N, s) && Next(pr, N, s, s') && !Sits(s, s')
    ensures Shape(N, s') && Sum(Potential, s'.pc) + (if Operates(s, s') then 1 else 0) <= Sum(Potential, s.pc)
  {
    hide Step, Sum, Enabled, Operates, Sits;
    if s' == s.(stop := true) {
      StopIdle(s);
    } else {
      var i: nat :| i < N && Enabled(pr, N, s, i) && s' == Step(pr, N, s, i);
      StepPotential(pr, N, s, i);
    }
  }

  lemma StopIdle(s: State)
    ensures !Operates(s, s.(stop := true))
  {
  }

  lemma StepPotential(pr: Protocol, N: nat, s: State, i: nat)
    requires Shape(N, s) && i < N && Enabled(pr, N, s, i)
    ensures var s' := Step(pr, N, s, i);
            && (s.pc[i] == HasFirst ==> Sits(s, s'))
            && (s.pc[i] != HasFirst ==>
                  Sum(Potential, s'.pc) + (if Operates(s, s') then 1 else 0) <= Sum(Potential, s.pc))
  {
    hide Sum;
    var s' := Step(pr, N, s, i);
    SumUpdate(Potential, s.pc, i, s'.pc[i]);
    if s.pc[i] == HasFirst { assert s'.pc[i] == Eating; }
    if Operates(s, s') {
      var j :| 0 <= j < |s.pc| && s.pc[j] in {Hungry, HasFirst, Eating, Leaving} && s'.pc[j] != s.pc[j];
      assert j == i;
    }
  }

  lemma {:induction false} OperationsBounded(pr: Protocol, N: nat, run: seq<State>)
    requires Window(pr, N, run) && !SomeoneEats(run)
    ensures Shape(N, run[|run| - 1])
    ensures Operations(run) + Sum(Potential, run[|run| - 1].pc) <= Sum(Potential, run[0].pc)
    decreases |run|
  {
    hide Next, Sits, Operates, Sum;
    if |run| > 1 {
      var front, n := run[..|run| - 1], |run| - 2;
      assert forall m :: 0 <= m < |run| - 1 ==> front[m] == run[m];
      OperationsBounded(pr, N, front);
      assert Next(pr, N, run[n], run[n + 1]) && !Sits(run[n], run[n + 1]);
      NextDecreases(pr, N, run[n], run[n + 1]);
    }
  }

  /** Any part of a run with more than `3N` lock and unlock operations contains a completed second
      acquisition, whether `Stop` is set in the course of it or not. */
  lemma {:induction false} WindowHasMeal(pr: Protocol, N: nat, run: seq<State>)
    requires Window(pr, N, run) && Operations(run) >= 3 * N + 1
    ensures SomeoneEats(run)
  {
    hide SomeoneEats, Next, Operations;
    SumBound(Potential, run[0].pc, 3);
    if !SomeoneEats(run) { OperationsBounded(pr, N, run); }
  }

  // ---------- After Stop ----------

  /** How many more steps a philosopher can take once `Stop` is set. */
  function StepsLeft(pc: PC): nat {
    match pc
    case Hungry => 5
    case HasFirst => 4
    case Eating => 3
    case Leaving => 2
    case Head => 1
    case Exited => 0
  }

  /** The philosophers of `sched` can take a step each, in that order. */
  ghost predicate Schedulable(pr: Protocol, N: nat, s: State, sched: seq<nat>)
    requires Shape(N, s)
    decreases |sched|
  {
    sched == [] ||
    (sched[0] < N && Enabled(pr, N, s, sched[0]) && Schedulable(pr, N, Step(pr, N, s, sched[0]), sched[1..]))
  }

  /** The state at the end of a schedule. */
  ghost function After(pr: Protocol, N: nat, s: State, sched: seq<nat>): (s': State)
    requires Shape(N, s) && Schedulable(pr, N, s, sched)
    ensures Shape(N, s')
    decreases |sched|
  {
    if sched == [] then s else After(pr, N, Step(pr, N, s, sched[0]), sched[1..])
  }

  /** Once `Stop` is set everybody leaves the table: no schedule is longer than `5N`, and one that
      cannot be continued has all philosophers exited. Nobody has to unlock a chopstick for them. */
  lemma {:induction false} ParityAllLeave(N: nat, s: State, sched: seq<nat>)
    requires Inv(ByParity, N, s) && s.stop && Schedulable(ByParity, N, s, sched)
    ensures |sched| <= Sum(StepsLeft, s.pc) <= 5 * N
    ensures Stuck(ByParity, N, After(ByParity, N, s, sched)) ==> AllExited(N, After(ByParity, N, s, sched))
    decreases |sched|
  {
    SumBound(StepsLeft, s.pc, 5);
    if sched == [] {
      if Stuck(ByParity, N, s) { ParityNeverStuck(N, s); }
    } else {
      var i := sched[0];
      var s' := Step(ByParity, N, s, i);
      StepInv(ByParity, N, s, i);
      SumUpdate(StepsLeft, s.pc, i, s'.pc[i]);
      ParityAllLeave(N, s', sched[1..]);
    }
  }

  // ---------- The naive order ----------

  predicate AllHaveLeft(N: nat, s: State)
    requires Shape(N, s)
  {
    forall i :: 0 <= i < N ==> s.pc[i] == HasFirst
  }

  /** In a stuck state of the naive protocol, the right neighbour of a philosopher with one chopstick
      has one too. */
  lemma StuckSpreads(N: nat, s: State, i: nat)
    requires Inv(LeftFirst, N, s) && Stuck(LeftFirst, N, s) && i < N && s.pc[i] == HasFirst
    ensures s.pc[RightPhil(N, i)] == HasFirst
  {
    assert !Enabled(LeftFirst, N, s, i);
    var j := WaitsForFirst(LeftFirst, N, s, Second(LeftFirst, N, i));
  }

  lemma {:induction false} StuckSpreadsDown(N: nat, s: State, i: nat, j: nat)
    requires Inv(LeftFirst, N, s) && Stuck(LeftFirst, N, s) && i < N && s.pc[i] == HasFirst && j <= i
    ensures s.pc[j] == HasFirst
    decreases i
  {
    if j < i {
      StuckSpreads(N, s, i);
      StuckSpreadsDown(N, s, i - 1, j);
    }
  }

  /** A state of the naive protocol is stuck exactly when everybody has exited or everybody holds the
      left chopstick and waits for the right one. */
  lemma NaiveStuckIff(N: nat, s: State)
    requires Inv(LeftFirst, N, s)
    ensures Stuck(LeftFirst, N, s) <==> AllExited(N, s) || AllHaveLeft(N, s)
  {
    if AllHaveLeft(N, s) {
      forall i | 0 <= i < N ensures !Enabled(LeftFirst, N, s, i) {
        assert Has(LeftFirst, N, s, RightPhil(N, i), RightChop(N, i));
      }
    }
    if Stuck(LeftFirst, N, s) && !AllExited(N, s) {
      var i :| 0 <= i < N && s.pc[i] != Exited;
      assert !Enabled(LeftFirst, N, s, i);
      if s.pc[i] == Hungry {
        var j := WaitsForFirst(LeftFirst, N, s, First(LeftFirst, N, i));
      }
      assert s.pc[i] == HasFirst;
      StuckSpreadsDown(N, s, i, 0);
      StuckSpreads(N, s, 0);
      forall j | 0 <= j < N ensures s.pc[j] == HasFirst {
        StuckSpreadsDown(N, s, N - 1, j);
      }
    }
  }

  /** The state in which the first `k` philosophers hold their left chopstick. */
  function LeftTaken(N: nat, k: nat): State
    requires k <= N
  {
    State(seq(N, i => if i < k then HasFirst else Head),
          seq(N, i => if i < k then Some(i) else None), false)
  }

  lemma {:induction false} ReachLeftTaken(N: nat, k: nat) returns (run: seq<State>)
    requires 2 <= N && k <= N
    ensures Run(LeftFirst, N, run) && run[|run| - 1] == LeftTaken(N, k)
  {
    if k == 0 {
      run := [Init(N)];
      assert Init(N) == LeftTaken(N, 0);
    } else {
      var run0 := ReachLeftTaken(N, k - 1);
      var s0 := run0[|run0| - 1];
      var s1 := Step(LeftFirst, N, s0, k - 1);
      var s2 := Step(LeftFirst, N, s1, k - 1);
      assert Next(LeftFirst, N, s0, s1) && Next(LeftFirst, N, s1, s2);
      run := run0 + [s1, s2];
      assert s2.pc == LeftTaken(N, k).pc && s2.owner == LeftTaken(N, k).owner;
      forall n | 0 <= n < |run| - 1 ensures Shape(N, run[n]) && Next(LeftFirst, N, run[n], run[n + 1]) {
        if n < |run0| - 1 {
          assert Next(LeftFirst, N, run0[n], run0[n + 1]);
        }
      }
    }
  }

  /** With the naive order, any number of philosophers can deadlock before `Stop`. */
  lemma NaiveDeadlocks(N: nat)
    requires 2 <= N
    ensures exists run :: Run(LeftFirst, N, run) && var s := run[|run| - 1];
                          Shape(N, s) && !s.stop && AllHaveLeft(N, s) && Stuck(LeftFirst, N, s)
  {
    var run := ReachLeftTaken(N, N);
    RunInv(LeftFirst, N, run);
    NaiveStuckIff(N, run[|run| - 1]);
  }
}
