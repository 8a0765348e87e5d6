/** Philosophers who ask a waiter (pthreads_dp/dp_waiter.c): one mutex guards the flags that say which
    chopsticks are available, and each philosopher has a condition variable to wait on.

    `available` is updated for both chopsticks in one step, as nobody else can look in between; the
    two signals are separate steps. */
module Waiter {
  import opened Common
  import opened Table
  import opened Ranking

  datatype PC =
    | Head       // about to read Stop
    | Ask        // about to lock the waiter mutex
    | Check      // holds it, about to test both flags
    | Sleep      // in pthread_cond_wait, not signalled
    | Woken      // in pthread_cond_wait, about to lock the mutex again
    | Take       // holds it, about to clear both flags
    | Seated     // holds it, about to unlock it
    | Eating     // about to lock it
    | Put        // holds it, about to set both flags
    | CallLeft   // holds it, about to signal the left neighbour
    | CallRight  // holds it, about to signal the right neighbour
    | Release    // holds it, about to unlock it
    | Exited

  datatype State = State(pc: seq<PC>, available: seq<bool>, waiter: Option<nat>, stop: bool)

  predicate Shape(N: nat, s: State) {
    2 <= N == |s.pc| == |s.available|
  }

  function Init(N: nat): State {
    State(seq(N, _ => Head), seq(N, _ => true), None, false)
  }

  predicate Enabled(N: nat, s: State, i: nat)
    requires Shape(N, s) && i < N
  {
    match s.pc[i]
    case Ask => s.waiter == None
    case Woken => s.waiter == None
    case Eating => s.waiter == None
    case Sleep => false
    case Exited => false
    case _ => true
  }

  function SetBoth(N: nat, s: State, i: nat, flag: bool): seq<bool>
    requires Shape(N, s) && i < N
  {
    s.available[LeftChop(N, i) := flag][RightChop(N, i) := flag]
  }

  /** `pthread_cond_signal` on the condition only philosopher `j` waits for. */
  function Signal(pc: seq<PC>, j: nat): seq<PC>
    requires j < |pc|
  {
    if pc[j] == Sleep then pc[j := Woken] else pc
  }

  function Step(N: nat, s: State, i: nat): (s': State)
    requires Shape(N, s) && i < N && Enabled(N, s, i)
    ensures Shape(N, s')
  {
    match s.pc[i]
    case Head => s.(pc := s.pc[i := if s.stop then Exited else Ask])
    case Ask => s.(pc := s.pc[i := Check], waiter := Some(i))
    case Woken => s.(pc := s.pc[i := Check], waiter := Some(i))
    case Check =>
      if s.available[LeftChop(N, i)] && s.available[RightChop(N, i)] then s.(pc := s.pc[i := Take])
      else s.(pc := s.pc[i := Sleep], waiter := None)
    case Take => s.(pc := s.pc[i := Seated], available := SetBoth(N, s, i, false))
    case Seated => s.(pc := s.pc[i := Eating], waiter := None)
    case Eating => s.(pc := s.pc[i := Put], waiter := Some(i))
    case Put => s.(pc := s.pc[i := CallLeft], available := SetBoth(N, s, i, true))
    case CallLeft => s.(pc := Signal(s.pc, LeftPhil(N, i))[i := CallRight])
    case CallRight => s.(pc := Signal(s.pc, RightPhil(N, i))[i := Release])
    case Release => s.(pc := s.pc[i := Head], waiter := None)
  }

  /** Some philosopher takes a step, wakes up for no reason, or the main program sets `Stop`. */
  ghost predicate Next(N: nat, s: State, s': State)
    requires Shape(N, s)
  {
    || s' == s.(stop := true)
    || (exists i: nat :: i < N && Enabled(N, s, i) && s' == Step(N, s, i))
    || (exists i: nat :: i < N && s.pc[i] == Sleep && s' == s.(pc := s.pc[i := Woken]))
  }

  ghost predicate Run(N: nat, run: seq<State>) {
    && 2 <= N && run != [] && run[0] == Init(N)
    && forall n :: 0 <= n < |run| - 1 ==> Shape(N, run[n]) && Next(N, run[n], run[n + 1])
  }

  // ---------- Invariant ----------

  predicate Holding(pc: PC) {
    pc in {Check, Take, Seated, Put, CallLeft, CallRight, Release}
  }

  /** The philosopher has been given both chopsticks. */
  predicate Uses(pc: PC) {
    pc in {Seated, Eating, Put}
  }

  /** Chopstick `c` is available exactly when neither philosopher it lies between uses it, and the two
      never both do. */
  predicate ChopInv(N: nat, s: State, c: nat)
    requires Shape(N, s) && c < N
  {
    var a, b := s.pc[c], s.pc[LeftPhil(N, c)];
    && (s.available[c] <==> !Uses(a) && !Uses(b))
    && !(Uses(a) && Uses(b))
  }

  /** The philosopher who holds the waiter mutex is going to signal `i`. */
  predicate WillBeCalled(N: nat, s: State, i: nat)
    requires Shape(N, s) && i < N
  {
    && s.waiter.Some? && s.waiter.value < N
    && var o := s.waiter.value;
    || (s.pc[o] == CallLeft && (LeftPhil(N, o) == i || RightPhil(N, o) == i))
    || (s.pc[o] == CallRight && RightPhil(N, o) == i)
  }

  predicate PhilInv(N: nat, s: State, i: nat)
    requires Shape(N, s) && i < N
  {
    && (Holding(s.pc[i]) <==> s.waiter == Some(i))
    && (s.pc[i] == Take ==> s.available[LeftChop(N, i)] && s.available[RightChop(N, i)])
    // no lost wakeup
    && (s.pc[i] == Sleep ==>
          WillBeCalled(N, s, i) || !s.available[LeftChop(N, i)] || !s.available[RightChop(N, i)])
  }

  ghost predicate Inv(N: nat, s: State) {
    && Shape(N, s)
    && (s.waiter.Some? ==> s.waiter.value < N)
    && (forall c :: 0 <= c < N ==> ChopInv(N, s, c))
    && (forall i :: 0 <= i < N ==> PhilInv(N, s, i))
  }

  /** Who uses chopsticks after a step of philosopher `i`. */
  lemma StepUses(N: nat, s: State, i: nat, j: nat)
    requires Shape(N, s) && i < N && Enabled(N, s, i) && j < N
    ensures Uses(Step(N, s, i).pc[j]) <==> if j == i then s.pc[i] in {Take, Seated, Eating} else Uses(s.pc[j])
  {
  }

  /** Which chopsticks are available after it. */
  lemma StepAvailable(N: nat, s: State, i: nat, c: nat)
    requires Shape(N, s) && i < N && Enabled(N, s, i) && c < N
    ensures Step(N, s, i).available[c]
         <==> if c == i || i == LeftPhil(N, c) then s.pc[i] == Put || (s.pc[i] != Take && s.available[c])
              else s.available[c]
  {
    SharedBy(N, c, i);
  }

  lemma StepChops(N: nat, s: State, i: nat, c: nat)
    requires Inv(N, s) && i < N && Enabled(N, s, i) && c < N
    ensures ChopInv(N, Step(N, s, i), c)
  {
    assert ChopInv(N, s, c) && PhilInv(N, s, i);
    hide Step, Inv, WillBeCalled;
    StepUses(N, s, i, c);
    StepUses(N, s, i, LeftPhil(N, c));
    StepAvailable(N, s, i, c);
    SharedBy(N, c, i);
    SharedBy(N, c, c);
  }

  lemma StepPhils(N: nat, s: State, i: nat, j: nat)
    requires Inv(N, s) && i < N && Enabled(N, s, i) && j < N
    ensures PhilInv(N, Step(N, s, i), j)
  {
    assert PhilInv(N, s, i) && PhilInv(N, s, j);
    SharedBy(N, LeftChop(N, j), i);
    SharedBy(N, RightChop(N, j), i);
    SharedBy(N, RightChop(N, j), j);
  }

  lemma StepInv(N: nat, s: State, i: nat)
    requires Inv(N, s) && i < N && Enabled(N, s, i)
    ensures Inv(N, Step(N, s, i))
  {
    assert PhilInv(N, s, i);
    forall c | 0 <= c < N ensures ChopInv(N, Step(N, s, i), c) { StepChops(N, s, i, c); }
    forall j | 0 <= j < N ensures PhilInv(N, Step(N, s, i), j) { StepPhils(N, s, i, j); }
  }

  lemma OtherInv(N: nat, s: State, s': State)
    requires Inv(N, s)
    requires s' == s.(stop := true) || exists i: nat :: i < N && s.pc[i] == Sleep && s' == s.(pc := s.pc[i := Woken])
    ensures Inv(N, s')
  {
    forall c | 0 <= c < N ensures ChopInv(N, s', c) { assert ChopInv(N, s, c); }
    forall j | 0 <= j < N ensures PhilInv(N, s', j) { assert PhilInv(N, s, j); }
  }

  lemma {:induction false} RunInv(N: nat, run: seq<State>)
    requires Run(N, run)
    ensures Inv(N, run[|run| - 1])
  {
    if |run| > 1 {
      var front := run[..|run| - 1];
      RunInv(N, front);
      var n := |run| - 2;
      assert run[n] == front[n] && Next(N, run[n], run[n + 1]);
      if exists i: nat :: i < N && Enabled(N, run[n], i) && run[n + 1] == Step(N, run[n], i) {
        var i: nat :| i < N && Enabled(N, run[n], i) && run[n + 1] == Step(N, run[n], i);
        StepInv(N, run[n], i);
      } else {
        OtherInv(N, run[n], run[n + 1]);
      }
    }
  }

  /** In a reachable state neighbours never eat together; and whenever the waiter mutex is free, a
      philosopher waiting without a signal has a neighbour who holds one of its chopsticks. */
  lemma NoLostWakeup(N: nat, run: seq<State>, i: nat)
    requires Run(N, run) && i < N
    ensures var s := run[|run| - 1];
            && Shape(N, s)
            && !(s.pc[i] == Eating && s.pc[LeftPhil(N, i)] == Eating)
            && (s.waiter == None && s.pc[i] == Sleep ==>
                  s.pc[LeftPhil(N, i)] == Eating || s.pc[RightPhil(N, i)] == Eating)
  {
    RunInv(N, run);
    var s := run[|run| - 1];
    if s.waiter == None && s.pc[i] == Sleep { SleeperHasEater(N, s, i); }
    assert ChopInv(N, run[|run| - 1], i);
  }

  lemma SleeperHasEater(N: nat, s: State, i: nat)
    requires Inv(N, s) && i < N && s.waiter == None && s.pc[i] == Sleep
    ensures s.pc[LeftPhil(N, i)] == Eating || s.pc[RightPhil(N, i)] == Eating
  {
    SharedBy(N, i, i);
    assert PhilInv(N, s, i) && PhilInv(N, s, LeftPhil(N, i)) && PhilInv(N, s, RightPhil(N, i));
    assert ChopInv(N, s, LeftChop(N, i)) && ChopInv(N, s, RightChop(N, i));
  }

  // ---------- No hanging ----------

  ghost predicate Stuck(N: nat, s: State)
    requires Shape(N, s)
  {
    forall i :: 0 <= i < N ==> !Enabled(N, s, i)
  }

  predicate AllExited(N: nat, s: State)
    requires Shape(N, s)
  {
    forall i :: 0 <= i < N ==> s.pc[i] == Exited
  }

  lemma OwnerEnabled(N: nat, s: State)
    requires Inv(N, s) && s.waiter.Some?
    ensures Enabled(N, s, s.waiter.value)
  {
    assert PhilInv(N, s, s.waiter.value);
  }

  lemma NeverStuck(N: nat, s: State)
    requires Inv(N, s) && Stuck(N, s)
    ensures AllExited(N, s)
  {
    assert s.waiter == None by {
      if s.waiter.Some? { OwnerEnabled(N, s); }
    }
    forall i | 0 <= i < N ensures s.pc[i] == Exited {
      assert !Enabled(N, s, i) && PhilInv(N, s, i);
      assert !Enabled(N, s, LeftPhil(N, i)) && !Enabled(N, s, RightPhil(N, i));
      if s.pc[i] == Sleep { SleeperHasEater(N, s, i); }
    }
  }

  /** How many more steps a philosopher can take, or cause, once `Stop` is set. */
  function Rank(pc: PC): nat {
    match pc
    case Exited => 0
    case Head => 1
    case Release => 2
    case CallRight => 5
    case CallLeft => 8
    case Put => 9
    case Eating => 10
    case Seated => 11
    case Take => 12
    case Sleep => 12
    case Check => 13
    case Ask => 14
    case Woken => 14
  }

  /** How a step changes the sum of any ranking in which waking somebody costs at most two. */
  lemma StepRank(rank: PC -> nat, N: nat, s: State, i: nat)
    requires Shape(N, s) && i < N && Enabled(N, s, i) && rank(Woken) <= rank(Sleep) + 2
    ensures var pc := Step(N, s, i).pc;
            Sum(rank, pc) <= Sum(rank, s.pc) - rank(s.pc[i]) + rank(pc[i])
                                 + if s.pc[i] in {CallLeft, CallRight} then 2 else 0
  {
    hide Sum;
    var s' := Step(N, s, i);
    if s.pc[i] == CallLeft || s.pc[i] == CallRight {
      var j := if s.pc[i] == CallLeft then LeftPhil(N, i) else RightPhil(N, i);
      SumUpdate(rank, s.pc, j, Woken);
      SumUpdate(rank, Signal(s.pc, j), i, s'.pc[i]);
    } else {
      SumUpdate(rank, s.pc, i, s'.pc[i]);
    }
  }

  /** After `Stop` every step but a spurious wakeup makes the rank smaller. */
  lemma StepDecreases(N: nat, s: State, i: nat)
    requires Shape(N, s) && i < N && Enabled(N, s, i) && s.stop
    ensures Sum(Rank, Step(N, s, i).pc) < Sum(Rank, s.pc)
  {
    StepRank(Rank, N, s, i);
  }

  /** The philosophers of `sched` can take a step each, in that order. */
  ghost predicate Schedulable(N: nat, s: State, sched: seq<nat>)
    requires Shape(N, s)
    decreases |sched|
  {
    sched == [] || (sched[0] < N && Enabled(N, s, sched[0]) && Schedulable(N, Step(N, s, sched[0]), sched[1..]))
  }

  ghost function After(N: nat, s: State, sched: seq<nat>): (s': State)
    requires Shape(N, s) && Schedulable(N, s, sched)
    ensures Shape(N, s')
    decreases |sched|
  {
    if sched == [] then s else After(N, Step(N, s, sched[0]), sched[1..])
  }

  /** Once `Stop` is set everybody leaves the table: without spurious wakeups no schedule is longer
      than `14N`, and one that cannot be continued has all philosophers exited. */
  lemma {:induction false} AllLeave(N: nat, s: State, sched: seq<nat>)
    requires Inv(N, s) && s.stop && Schedulable(N, s, sched)
    ensures |sched| <= Sum(Rank, s.pc) <= 14 * N
    ensures Stuck(N, After(N, s, sched)) ==> AllExited(N, After(N, s, sched))
    decreases |sched|
  {
    SumBound(Rank, s.pc, 14);
    if sched == [] {
      if Stuck(N, s) { NeverStuck(N, s); }
    } else {
      StepInv(N, s, sched[0]);
      StepDecreases(N, s, sched[0]);
      AllLeave(N, Step(N, s, sched[0]), sched[1..]);
    }
  }

  /** How many steps a philosopher can take before somebody takes chopsticks, wakeups of others
      included. */
  function StepsToMeal(pc: PC): nat {
    match pc
    case Exited => 0
    case Sleep => 0
    case Take => 0
    case Check => 1
    case Ask => 2
    case Woken => 2
    case Head => 3
    case Release => 4
    case CallRight => 7
    case CallLeft => 10
    case Put => 11
    case Eating => 12
    case Seated => 13
  }

  /** A part of a run without spurious wakeups, `Stop` included. */
  ghost predicate Window(N: nat, run: seq<State>) {
    && run != [] && Shape(N, run[0])
    && forall n :: 0 <= n < |run| - 1 ==> Shape(N, run[n]) && Proper(N, run[n], run[n + 1])
  }

  /** Some philosopher takes a step, or the main program sets `Stop`. */
  ghost predicate Proper(N: nat, s: State, s': State)
    requires Shape(N, s)
  {
    s' == s.(stop := true) || exists i: nat :: i < N && Enabled(N, s, i) && s' == Step(N, s, i)
  }

  /** The number of steps of philosophers. */
  function Steps(run: seq<State>): nat {
    if |run| <= 1 then 0 else
      Steps(run[..|run| - 1]) + if run[|run| - 1].pc != run[|run| - 2].pc then 1 else 0
  }

  /** Somebody takes both chopsticks. */
  ghost predicate Takes(s: State, s': State) {
    exists i :: 0 <= i < |s.pc| == |s'.pc| && s.pc[i] == Take && s'.pc[i] == Seated
  }

  ghost predicate SomeoneTakes(run: seq<State>) {
    exists n :: 0 <= n < |run| - 1 && Takes(run[n], run[n + 1])
  }

  lemma ProperDecreases(N: nat, s: State, s': State)
    requires Shape(N, s) && Proper(N, s, s') && !Takes(s, s')
    ensures Shape(N, s') && Sum(StepsToMeal, s'.pc) + (if s'.pc != s.pc then 1 else 0) <= Sum(StepsToMeal, s.pc)
  {
    hide Step, Sum, Enabled;
    if s'.pc != s.pc {
      var i: nat :| i < N && Enabled(N, s, i) && s' == Step(N, s, i);
      StepToMeal(N, s, i);
    }
  }

  lemma StepToMeal(N: nat, s: State, i: nat)
    requires Shape(N, s) && i < N && Enabled(N, s, i)
    ensures s.pc[i] == Take ==> Takes(s, Step(N, s, i))
    ensures s.pc[i] != Take ==> Sum(StepsToMeal, Step(N, s, i).pc) + 1 <= Sum(StepsToMeal, s.pc)
  {
    hide Sum;
    StepRank(StepsToMeal, N, s, i);
    if s.pc[i] == Take { assert Step(N, s, i).pc[i] == Seated; }
  }

  lemma {:induction false} StepsBounded(N: nat, run: seq<State>)
    requires Window(N, run) && !SomeoneTakes(run)
    ensures Shape(N, run[|run| - 1])
    ensures Steps(run) + Sum(StepsToMeal, run[|run| - 1].pc) <= Sum(StepsToMeal, run[0].pc)
    decreases |run|
  {
    hide Proper, Takes, Sum;
    if |run| > 1 {
      var front, n := run[..|run| - 1], |run| - 2;
      assert forall m :: 0 <= m < |run| - 1 ==> front[m] == run[m];
      StepsBounded(N, front);
      assert Proper(N, run[n], run[n + 1]) && !Takes(run[n], run[n + 1]);
      ProperDecreases(N, run[n], run[n + 1]);
    }
  }

  /** In any part of a run with more than `13N` steps and no spurious wakeup somebody takes both
      chopsticks, whether `Stop` is set in the course of it or not: there is no livelock either. */
  lemma {:induction false} WindowHasMeal(N: nat, run: seq<State>)
    requires Window(N, run) && Steps(run) >= 13 * N + 1
    ensures SomeoneTakes(run)
  {
    hide SomeoneTakes, Proper, Steps;
    SumBound(StepsToMeal, run[0].pc, 13);
    if !SomeoneTakes(run) { StepsBounded(N, run); }
  }

  /** Before `Stop` somebody can always take a step. */
  lemma DeadlockFree(N: nat, run: seq<State>)
    requires Run(N, run) && !run[|run| - 1].stop
    ensures Shape(N, run[|run| - 1]) && !Stuck(N, run[|run| - 1])
  {
    RunInv(N, run);
    NobodyLeft(N, run);
    var s := run[|run| - 1];
    assert s.pc[0] != Exited;
    if Stuck(N, s) { NeverStuck(N, s); }
  }

  lemma StopStays(N: nat, s: State, s': State)
    requires Shape(N, s) && Next(N, s, s') && s.stop
    ensures s'.stop
  {
  }

  lemma NobodyLeaves(N: nat, s: State, s': State)
    requires Shape(N, s) && Next(N, s, s') && !s'.stop && forall i :: 0 <= i < N ==> s.pc[i] != Exited
    ensures !s.stop && Shape(N, s') && forall i :: 0 <= i < N ==> s'.pc[i] != Exited
  {
    hide Step;
    if i: nat :| i < N && Enabled(N, s, i) && s' == Step(N, s, i) {
      StepStays(N, s, i, i);
      forall j | 0 <= j < N ensures s'.pc[j] != Exited {
        StepStays(N, s, i, j);
      }
    }
  }

  lemma StepStays(N: nat, s: State, i: nat, j: nat)
    requires Shape(N, s) && i < N && Enabled(N, s, i) && j < N
    ensures Step(N, s, i).stop == s.stop
    ensures !s.stop && s.pc[j] != Exited ==> Step(N, s, i).pc[j] != Exited
  {
  }

  lemma {:induction false} NobodyLeft(N: nat, run: seq<State>)
    requires Run(N, run) && !run[|run| - 1].stop
    ensures var s := run[|run| - 1]; Shape(N, s) && forall i :: 0 <= i < N ==> s.pc[i] != Exited
  {
    hide Next;
    if |run| > 1 {
      var front, n := run[..|run| - 1], |run| - 2;
      assert run[n] == front[n] && Next(N, run[n], run[n + 1]);
      if run[n].stop { StopStays(N, run[n], run[n + 1]); }
      NobodyLeft(N, front);
      NobodyLeaves(N, run[n], run[n + 1]);
    }
  }
}
