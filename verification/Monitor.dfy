/** The producers and consumers of pthreads_pc/producer_consumer.c as a step system.

    Threads `0 .. P - 1` are producers, the rest are consumers. The queue, the counters and the
    flags are shared; one mutex guards them, and there is one condition variable for each role.
    A waiting thread is `Waiting` until some broadcast (or, spuriously, nothing at all) makes it
    `Woken`; it then has to get the mutex again before it looks at the condition again. */
module Monitor {
  import opened Common
  import opened BoundedQueue
  import opened Ranking

  /** Number of producers and consumers, size of the queue, and `WORK_MAX`. */
  datatype Config = Config(P: nat, C: nat, size: nat, T: nat)

  datatype PC =
    | Start     // outside the critical section, about to lock the mutex
    | Test      // holds the mutex, about to evaluate the loop condition and the exit condition
    | Act       // holds the mutex, about to add or remove an item
    | Announce  // holds the mutex, about to broadcast
    | Unlock    // holds the mutex, about to unlock it and go round
    | Leave     // holds the mutex, about to unlock it and exit
    | Waiting   // in pthread_cond_wait, not signalled
    | Woken     // in pthread_cond_wait, about to lock the mutex again
    | Exited

  datatype State = State(q: Ring, produced: nat, consumed: nat, owner: Option<nat>, pc: seq<PC>,
                         removed: seq<int>)

  function Threads(c: Config): nat { c.P + c.C }

  predicate Producer(c: Config, i: nat) { i < c.P }

  /** The state before any thread has run. `removed` records the items consumers took. */
  function Init(c: Config): State {
    State(Empty(c.size), 0, 0, None, seq(Threads(c), _ => Start), [])
  }

  /** The condition of the waiting loop. */
  predicate MustWait(c: Config, s: State, i: nat) {
    if Producer(c, i) then s.q.full && s.produced != c.T else s.q.empty && s.consumed != c.T
  }

  /** The condition of the `break`. */
  predicate MayLeave(c: Config, s: State, i: nat) {
    if Producer(c, i) then s.produced >= c.T else s.consumed >= c.T
  }

  predicate Shape(c: Config, s: State) {
    && |s.pc| == Threads(c) && |s.q.buf| == c.size > 0
    && s.q.head < c.size && s.q.tail < c.size
  }

  function Goto(s: State, i: nat, pc: PC): State
    requires i < |s.pc|
  {
    s.(pc := s.pc[i := pc])
  }

  /** `pthread_cond_broadcast` on the condition the other role waits for. */
  function WakeOthers(c: Config, pc: seq<PC>, i: nat): (r: seq<PC>)
    ensures |r| == |pc|
    ensures forall j :: 0 <= j < |pc| ==>
              r[j] == if pc[j] == Waiting && Producer(c, j) != Producer(c, i) then Woken else pc[j]
  {
    seq(|pc|, j requires 0 <= j < |pc| =>
      if pc[j] == Waiting && Producer(c, j) != Producer(c, i) then Woken else pc[j])
  }

  /** Thread `i` can take a step of its own. */
  predicate Enabled(c: Config, s: State, i: nat)
    requires Shape(c, s) && i < Threads(c)
  {
    match s.pc[i]
    case Start => s.owner == None
    case Woken => s.owner == None
    case Waiting => false
    case Exited => false
    case _ => true
  }

  /** The step thread `i` takes. */
  function Step(c: Config, s: State, i: nat): (s': State)
    requires Shape(c, s) && i < Threads(c) && Enabled(c, s, i)
    ensures Shape(c, s')
  {
    match s.pc[i]
    case Start => Goto(s, i, Test).(owner := Some(i))
    case Woken => Goto(s, i, Test).(owner := Some(i))
    case Test =>
      if MustWait(c, s, i) then Goto(s, i, Waiting).(owner := None)
      else if MayLeave(c, s, i) then Goto(s, i, Leave)
      else Goto(s, i, Act)
    case Act =>
      if Producer(c, i) then
        Goto(s, i, Announce).(q := Add(s.q, s.produced), produced := s.produced + 1)
      else
        var (q, x) := Remove(s.q);
        Goto(s, i, Announce).(q := q, consumed := s.consumed + 1, removed := s.removed + [x])
    case Announce => s.(pc := WakeOthers(c, s.pc, i)[i := Unlock])
    case Unlock => Goto(s, i, Start).(owner := None)
    case Leave => Goto(s, i, Exited).(owner := None)
  }

  ghost predicate Next(c: Config, s: State, s': State)
    requires Shape(c, s)
  {
    exists i: nat :: i < Threads(c) && Enabled(c, s, i) && s' == Step(c, s, i)
  }

  /** `pthread_cond_wait` may return without a broadcast. */
  ghost predicate Spurious(c: Config, s: State, s': State)
    requires Shape(c, s)
  {
    exists i: nat :: i < Threads(c) && s.pc[i] == Waiting && s' == Goto(s, i, Woken)
  }

  // ---------- Safety ----------

  /** The items `from, from + 1, ..., to - 1`. */
  function Items(from: nat, to: nat): (s: seq<int>)
    requires from <= to
    ensures |s| == to - from && forall i :: 0 <= i < |s| ==> s[i] == from + i
  {
    seq(to - from, i => from + i)
  }

  predicate Holding(pc: PC) {
    pc in {Test, Act, Announce, Unlock, Leave}
  }

  /** A thread of the other role is about to broadcast. */
  predicate OtherAnnounces(c: Config, s: State, i: nat)
    requires Shape(c, s)
  {
    s.owner.Some? && s.owner.value < Threads(c) && Producer(c, s.owner.value) != Producer(c, i)
    && s.pc[s.owner.value] == Announce
  }

  /** What is known of thread `i`. */
  predicate ThreadInv(c: Config, s: State, i: nat)
    requires Shape(c, s) && i < Threads(c)
  {
    && (Holding(s.pc[i]) <==> s.owner == Some(i))
    && (s.pc[i] == Act ==> if Producer(c, i) then !s.q.full && s.produced < c.T else !s.q.empty && s.consumed < c.T)
    && (s.pc[i] in {Leave, Exited} ==> if Producer(c, i) then s.produced == c.T else s.consumed == c.T)
    // no lost wakeup
    && (s.pc[i] == Waiting ==>
          || OtherAnnounces(c, s, i)
          || if Producer(c, i) then s.q.full && s.produced < c.T else s.q.empty && s.consumed < c.T)
  }

  ghost predicate Inv(c: Config, s: State) {
    && Shape(c, s)
    && s.consumed <= s.produced <= c.T
    // the queue holds the items produced and not yet consumed, in order
    && Holds(s.q, Items(s.consumed, s.produced))
    // the items taken out so far are an initial segment of 0, 1, 2, ...
    && s.removed == Items(0, s.consumed)
    && (s.owner.Some? ==> s.owner.value < Threads(c))
    && (c.P == 0 ==> s.produced == 0) && (c.C == 0 ==> s.consumed == 0)
    && forall i :: 0 <= i < Threads(c) ==> ThreadInv(c, s, i)
  }

  lemma InitInv(c: Config)
    requires c.size > 0
    ensures Inv(c, Init(c))
  {
  }

  lemma ActProducerInv(c: Config, s: State, i: nat)
    requires Inv(c, s) && i < Threads(c) && s.pc[i] == Act && Producer(c, i)
    ensures Inv(c, Step(c, s, i))
  {
    assert ThreadInv(c, s, i);
    AddAppends(s.q, Items(s.consumed, s.produced), s.produced);
    assert Items(s.consumed, s.produced + 1) == Items(s.consumed, s.produced) + [s.produced];
    var s' := Step(c, s, i);
    forall j | 0 <= j < Threads(c) ensures ThreadInv(c, s', j) {
      assert ThreadInv(c, s, j) && ThreadInv(c, s, i);
    }
  }

  lemma ActConsumerInv(c: Config, s: State, i: nat)
    requires Inv(c, s) && i < Threads(c) && s.pc[i] == Act && !Producer(c, i)
    ensures Inv(c, Step(c, s, i))
  {
    assert ThreadInv(c, s, i);
    RemoveTakesOldest(s.q, Items(s.consumed, s.produced));
    assert Items(s.consumed + 1, s.produced) == Items(s.consumed, s.produced)[1..];
    assert Items(0, s.consumed + 1) == Items(0, s.consumed) + [s.consumed];
    var s' := Step(c, s, i);
    forall j | 0 <= j < Threads(c) ensures ThreadInv(c, s', j) {
      assert ThreadInv(c, s, j) && ThreadInv(c, s, i);
    }
  }

  /** Every step keeps the invariant; in particular items are added only when there is room, and
      removed only when there are any. */
  lemma StepInv(c: Config, s: State, i: nat)
    requires Inv(c, s) && i < Threads(c) && Enabled(c, s, i)
    ensures Inv(c, Step(c, s, i))
    ensures s.pc[i] == Act ==> if Producer(c, i) then !s.q.full else !s.q.empty
  {
    assert ThreadInv(c, s, i);
    if s.pc[i] == Act {
      if Producer(c, i) { ActProducerInv(c, s, i); } else { ActConsumerInv(c, s, i); }
    } else {
      var s' := Step(c, s, i);
      forall j | 0 <= j < Threads(c) ensures ThreadInv(c, s', j) {
        assert ThreadInv(c, s, j);
      }
    }
  }

  lemma SpuriousInv(c: Config, s: State, s': State)
    requires Inv(c, s) && Spurious(c, s, s')
    ensures Inv(c, s')
  {
    forall j | 0 <= j < Threads(c) ensures ThreadInv(c, s', j) {
      assert ThreadInv(c, s, j);
    }
  }

  /** A run from the initial state, spurious wakeups included. */
  ghost predicate Run(c: Config, run: seq<State>) {
    && run != [] && run[0] == Init(c)
    && forall n :: 0 <= n < |run| - 1 ==>
         Shape(c, run[n]) && (Next(c, run[n], run[n + 1]) || Spurious(c, run[n], run[n + 1]))
  }

  lemma NextInv(c: Config, s: State, s': State)
    requires Shape(c, s) && Inv(c, s) && (Next(c, s, s') || Spurious(c, s, s'))
    ensures Inv(c, s')
  {
    hide Inv;
    if Next(c, s, s') {
      var i: nat :| i < Threads(c) && Enabled(c, s, i) && s' == Step(c, s, i);
      StepInv(c, s, i);
    } else {
      SpuriousInv(c, s, s');
    }
  }

  lemma {:induction false} RunInv(c: Config, run: seq<State>)
    requires c.size > 0 && Run(c, run)
    ensures Inv(c, run[|run| - 1])
  {
    hide Inv, Next, Spurious;
    if |run| == 1 {
      InitInv(c);
    } else {
      var front, n := run[..|run| - 1], |run| - 2;
      RunInv(c, front);
      assert run[n] == front[n];
      NextInv(c, run[n], run[n + 1]);
    }
  }

  /** In every reachable state the items removed are 0, 1, 2, ... in order, each once; what is
      produced and not consumed is in the queue; and the flags tell its length. */
  lemma RunSafe(c: Config, run: seq<State>)
    requires c.size > 0 && Run(c, run)
    ensures var s := run[|run| - 1];
            && Inv(c, s)
            && (forall n :: 0 <= n < |s.removed| ==> s.removed[n] == n)
            && s.produced == s.consumed + |Items(s.consumed, s.produced)| && |s.removed| == s.consumed
            && (s.q.full <==> s.produced - s.consumed == c.size)
            && (s.q.empty <==> s.produced == s.consumed)
  {
    hide Run, ThreadInv;
    RunInv(c, run);
  }

  // ---------- No hanging ----------

  predicate AllExited(c: Config, s: State)
    requires Shape(c, s)
  {
    forall i :: 0 <= i < Threads(c) ==> s.pc[i] == Exited
  }

  ghost predicate Stuck(c: Config, s: State)
    requires Shape(c, s)
  {
    forall i :: 0 <= i < Threads(c) ==> !Enabled(c, s, i)
  }

  /** What the numbers of threads have to satisfy: whoever may be left waiting needs a partner. */
  predicate Staffed(c: Config) {
    && (c.P > 0 || c.C == 0 || c.T == 0)
    && (c.C > 0 || c.P == 0 || c.T <= c.size)
  }

  lemma OwnerEnabled(c: Config, s: State)
    requires Inv(c, s) && s.owner.Some?
    ensures Enabled(c, s, s.owner.value)
  {
    assert ThreadInv(c, s, s.owner.value);
  }

  /** Although neither exit path broadcasts, no thread is left waiting. */
  lemma NoneLeftWaiting(c: Config, s: State)
    requires Inv(c, s) && Staffed(c) && Stuck(c, s)
    ensures AllExited(c, s)
  {
    assert s.owner == None by {
      if s.owner.Some? { OwnerEnabled(c, s); }
    }
    if c.P > 0 { assert ThreadInv(c, s, 0); }
    if c.C > 0 { assert ThreadInv(c, s, c.P); }
    forall i | 0 <= i < Threads(c) ensures s.pc[i] == Exited || s.pc[i] == Waiting {
      assert !Enabled(c, s, i) && ThreadInv(c, s, i);
    }
    forall i | 0 <= i < Threads(c) ensures s.pc[i] == Exited {
      assert ThreadInv(c, s, i);
      // a waiting producer contradicts any consumer there is, and the other way round
    }
  }

  // ---------- Termination ----------

  function Rank(c: Config, pc: PC): nat {
    match pc
    case Exited => 0
    case Waiting => 1
    case Leave => 2
    case Act => 2
    case Test => 3
    case Start => 4
    case Woken => 4
    case Unlock => 5
    case Announce => 6 + 3 * Threads(c)
  }

  function Ranks(c: Config): PC -> nat {
    pc => Rank(c, pc)
  }

  /** Work left to do pays for the wakeups it will cause. */
  function Measure(c: Config, s: State): int {
    (2 * c.T - s.produced - s.consumed) * (5 + 3 * Threads(c)) + Sum(Ranks(c), s.pc)
  }

  /** Every step but a spurious wakeup makes the measure smaller. */
  lemma StepDecreases(c: Config, s: State, i: nat)
    requires Inv(c, s) && i < Threads(c) && Enabled(c, s, i)
    ensures Measure(c, Step(c, s, i)) < Measure(c, s)
  {
    if s.pc[i] == Announce {
      AnnounceDecreases(c, s, i);
    } else if s.pc[i] == Act {
      ActDecreases(c, s, i);
    } else {
      hide Inv, Sum, Threads, MustWait, MayLeave;
      SumUpdate(Ranks(c), s.pc, i, Step(c, s, i).pc[i]);
    }
  }

  lemma AnnounceDecreases(c: Config, s: State, i: nat)
    requires Shape(c, s) && i < Threads(c) && s.pc[i] == Announce
    ensures Measure(c, Step(c, s, i)) < Measure(c, s)
  {
    hide Sum;
    var woken := WakeOthers(c, s.pc, i);
    SumRise(Ranks(c), s.pc, woken, 3);
    SumUpdate(Ranks(c), woken, i, Unlock);
  }

  lemma ActDecreases(c: Config, s: State, i: nat)
    requires Shape(c, s) && i < Threads(c) && s.pc[i] == Act
    ensures Measure(c, Step(c, s, i)) < Measure(c, s)
  {
    hide Sum, Add, Remove;
    SumUpdate(Ranks(c), s.pc, i, Announce);
    OneLess(2 * c.T - s.produced - s.consumed, 5 + 3 * Threads(c));
  }

  lemma OneLess(left: int, w: int)
    ensures (left - 1) * w == left * w - w
  {
  }

  lemma MeasurePositive(c: Config, s: State)
    requires Inv(c, s)
    ensures Measure(c, s) >= 0
  {
    var w, left := 5 + 3 * Threads(c), 2 * c.T - s.produced - s.consumed;
    assert left >= 0 && left * w >= 0;
  }

  /** A run without spurious wakeups. */
  ghost predicate ProperRun(c: Config, run: seq<State>) {
    && run != [] && run[0] == Init(c)
    && forall n :: 0 <= n < |run| - 1 ==> Shape(c, run[n]) && Next(c, run[n], run[n + 1])
  }

  /** An explicit bound on the number of steps. */
  function Bound(c: Config): nat {
    2 * c.T * (5 + 3 * Threads(c)) + 4 * Threads(c)
  }

  lemma {:induction false} RunMeasure(c: Config, run: seq<State>)
    requires c.size > 0 && ProperRun(c, run)
    ensures var s := run[|run| - 1];
            Inv(c, s) && |run| - 1 + Measure(c, s) <= Bound(c)
  {
    if |run| == 1 {
      InitInv(c);
      SumBound(Ranks(c), Init(c).pc, 4);
    } else {
      var front := run[..|run| - 1];
      RunMeasure(c, front);
      var n := |run| - 2;
      assert run[n] == front[n] && Next(c, run[n], run[n + 1]);
      var i: nat :| i < Threads(c) && Enabled(c, run[n], i) && run[n + 1] == Step(c, run[n], i);
      StepInv(c, run[n], i);
      StepDecreases(c, run[n], i);
    }
  }

  /** Every run is finite, and one that cannot be continued has all items consumed in order and, if
      the threads are staffed, all threads exited. */
  lemma RunsEnd(c: Config, run: seq<State>)
    requires c.size > 0 && ProperRun(c, run)
    ensures |run| - 1 <= Bound(c)
    ensures var s := run[|run| - 1];
            Shape(c, s) && (Stuck(c, s) && Staffed(c) ==>
              AllExited(c, s) && (c.P > 0 && c.C > 0 ==>
                s.produced == s.consumed == c.T && s.removed == Items(0, c.T) && s.q.empty))
  {
    RunMeasure(c, run);
    var s := run[|run| - 1];
    MeasurePositive(c, s);
    if Stuck(c, s) && Staffed(c) {
      NoneLeftWaiting(c, s);
      if c.P > 0 && c.C > 0 {
        assert ThreadInv(c, s, 0) && ThreadInv(c, s, c.P);
      }
    }
  }

  lemma {:induction false} Finish(c: Config, run: seq<State>) returns (all: seq<State>)
    requires c.size > 0 && ProperRun(c, run)
    ensures ProperRun(c, all) && Inv(c, all[|all| - 1]) && Stuck(c, all[|all| - 1])
    decreases Bound(c) - |run|
  {
    RunMeasure(c, run);
    var s := run[|run| - 1];
    MeasurePositive(c, s);
    if Stuck(c, s) {
      all := run;
    } else {
      var i :| 0 <= i < Threads(c) && Enabled(c, s, i);
      var longer := run + [Step(c, s, i)];
      assert Next(c, s, Step(c, s, i));
      RunMeasure(c, longer);
      StepInv(c, s, i);
      MeasurePositive(c, Step(c, s, i));
      all := Finish(c, longer);
    }
  }

  /** A run at whose end no thread can take a step although one has not exited. */
  ghost predicate Hangs(c: Config, run: seq<State>) {
    && ProperRun(c, run) && Shape(c, run[|run| - 1])
    && Stuck(c, run[|run| - 1]) && !AllExited(c, run[|run| - 1])
  }

  /** Some run hangs with a thread waiting for ever exactly when the threads are not staffed: there
      are consumers and work but no producers, or producers and more work than fits the queue but no
      consumers. */
  lemma HangsIffUnstaffed(c: Config)
    requires c.size > 0
    ensures (exists run :: Hangs(c, run)) <==> !Staffed(c)
  {
    if exists run :: Hangs(c, run) {
      var run :| Hangs(c, run);
      RunsEnd(c, run);
    }
    if !Staffed(c) {
      var start := [Init(c)];
      var run := Finish(c, start);
      var s := run[|run| - 1];
      assert ThreadInv(c, s, 0);
      assert Hangs(c, run);
    }
  }
}
