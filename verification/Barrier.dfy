/**
 * The barrier of `bw.cpp` as a transition system: a counter under a mutex, and a condition variable on
 * which all but the last thread of a round wait. The system starts after `barrier_init(count)`; exactly
 * `count` threads use the barrier, and nothing but a broadcast wakes a waiting thread.
 */
module Barrier {
  import opened Sums

  /** Where a thread stands in `barrier_cross`. */
  datatype Pc =
    | Outside     // between two crossings
    | Entering    // in pthread_mutex_lock
    | Locked      // before the counter is incremented
    | Counted     // before the test
    | MustWait    // the test held: about to call pthread_cond_wait
    | Asleep      // in pthread_cond_wait, mutex released
    | Woken       // in pthread_cond_wait, taking the mutex again
    | Broadcast   // the test failed: about to call pthread_cond_broadcast
    | Reset       // before the counter is reset
    | Unlock      // in pthread_mutex_unlock

  /** How often the thread has called `barrier_cross`, has incremented the counter, and has returned. */
  datatype Thread = Thread(pc: Pc, entered: nat, arrived: nat, completed: nat)

  datatype Mutex = Free | HeldBy(owner: nat)

  /** `rounds` counts the broadcasts; it is not part of the program. */
  datatype State = State(mutex: Mutex, crossed: nat, threads: seq<Thread>, rounds: nat)

  /** Each of the `count` threads crosses `crossings` times. */
  datatype Config = Config(count: nat, crossings: nat)

  ghost predicate ConfigOk(c: Config) {
    c.count > 0
  }

  ghost function Start(c: Config): State {
    State(Free, 0, seq(c.count, _ => Thread(Outside, 0, 0, 0)), 0)
  }

  // ---- steps ----

  ghost predicate Enabled(c: Config, s: State, t: nat) {
    t < |s.threads| &&
    match s.threads[t].pc
    case Outside => s.threads[t].entered < c.crossings
    case Entering => s.mutex.Free?
    case Woken => s.mutex.Free?
    case Asleep => false
    case _ => true
  }

  function Wake(threads: seq<Thread>): (r: seq<Thread>)
    ensures |r| == |threads|
  {
    seq(|threads|, i requires 0 <= i < |threads| =>
      if threads[i].pc.Asleep? then threads[i].(pc := Woken) else threads[i])
  }

  ghost function Step(c: Config, s: State, t: nat): State
    requires Enabled(c, s, t)
  {
    var th := s.threads[t];
    match th.pc
    case Outside => s.(threads := s.threads[t := th.(pc := Entering, entered := th.entered + 1)])
    case Entering => s.(mutex := HeldBy(t), threads := s.threads[t := th.(pc := Locked)])
    case Locked =>
      s.(crossed := s.crossed + 1, threads := s.threads[t := th.(pc := Counted, arrived := th.arrived + 1)])
    case Counted =>
      s.(threads := s.threads[t := th.(pc := if s.crossed < c.count then MustWait else Broadcast)])
    case MustWait => s.(mutex := Free, threads := s.threads[t := th.(pc := Asleep)])
    case Broadcast => s.(threads := Wake(s.threads)[t := th.(pc := Reset)], rounds := s.rounds + 1)
    case Reset => s.(crossed := 0, threads := s.threads[t := th.(pc := Unlock)])
    case Woken => s.(mutex := HeldBy(t), threads := s.threads[t := th.(pc := Unlock)])
    case _ => s.(mutex := Free, threads := s.threads[t := th.(pc := Outside, completed := th.completed + 1)])
  }

  ghost predicate Next(c: Config, s: State, s': State) {
    exists t: nat :: Enabled(c, s, t) && s' == Step(c, s, t)
  }

  ghost predicate Trace(c: Config, tr: seq<State>) {
    && |tr| > 0 && tr[0] == Start(c)
    && forall i | 0 <= i < |tr| - 1 :: Next(c, tr[i], tr[i+1])
  }

  // ---- the invariant ----

  ghost predicate HoldsMutex(pc: Pc) {
    pc.Locked? || pc.Counted? || pc.MustWait? || pc.Broadcast? || pc.Reset? || pc.Unlock?
  }

  /** The counts of a thread, relative to the current round. */
  ghost predicate ThreadOk(c: Config, s: State, th: Thread) {
    && th.entered <= c.crossings
    && match th.pc
       case Outside => th.entered == th.arrived == th.completed == s.rounds
       case Entering => th.entered == s.rounds + 1 && th.arrived == th.completed == s.rounds
       case Locked => th.entered == s.rounds + 1 && th.arrived == th.completed == s.rounds
       case Woken => th.entered == th.arrived == s.rounds == th.completed + 1
       case Reset => th.entered == th.arrived == s.rounds == th.completed + 1
       case Unlock => th.entered == th.arrived == s.rounds == th.completed + 1
       case _ => th.entered == th.arrived == s.rounds + 1 && th.completed == s.rounds
  }

  /** One for every thread that has been counted in the current round. */
  ghost function Arrived(threads: seq<Thread>, round: nat): (r: seq<nat>)
    ensures |r| == |threads|
  {
    seq(|threads|, i requires 0 <= i < |threads| => if threads[i].arrived == round + 1 then 1 else 0)
  }

  ghost predicate Owns(s: State, t: nat) {
    s.mutex == HeldBy(t)
  }

  ghost predicate Resetting(s: State) {
    s.mutex.HeldBy? && s.mutex.owner < |s.threads| && s.threads[s.mutex.owner].pc.Reset?
  }

  /** The counter reaches `count` only while the last thread of the round holds the mutex. */
  ghost predicate RoundFull(c: Config, s: State) {
    && s.mutex.HeldBy? && s.mutex.owner < |s.threads|
    && var pc := s.threads[s.mutex.owner].pc;
       pc.Counted? || pc.Broadcast? || pc.Reset?
  }

  ghost predicate Inv(c: Config, s: State) {
    && ConfigOk(c) && |s.threads| == c.count
    && (s.mutex.HeldBy? ==> s.mutex.owner < c.count)
    && (forall t: nat | t < c.count :: ThreadOk(c, s, s.threads[t]) && (HoldsMutex(s.threads[t].pc) <==> Owns(s, t)))
    && s.crossed == Sum(Arrived(s.threads, s.rounds)) + (if Resetting(s) then c.count else 0)
    && (s.crossed < c.count || RoundFull(c, s))
    && (s.mutex.HeldBy? && s.threads[s.mutex.owner].pc.MustWait? ==> s.crossed < c.count)
    && (s.mutex.HeldBy? && s.threads[s.mutex.owner].pc.Broadcast? ==> s.crossed == c.count)
    && s.crossed <= c.count
  }

  lemma StartInv(c: Config)
    requires ConfigOk(c)
    ensures Inv(c, Start(c))
  {
    SumConstant(Arrived(Start(c).threads, 0), 0);
  }

  /** A thread calls `barrier_cross`. */
  lemma EnterInv(c: Config, s: State, t: nat)
    requires Inv(c, s) && Enabled(c, s, t) && s.threads[t].pc.Outside?
    ensures Inv(c, Step(c, s, t))
  {
    var s' := Step(c, s, t);
    assert Arrived(s'.threads, s'.rounds) == Arrived(s.threads, s.rounds);
    BoundedArrivals(s.threads, s.rounds);
  }

  /** The test against `count`. */
  lemma TestInv(c: Config, s: State, t: nat)
    requires Inv(c, s) && Enabled(c, s, t) && s.threads[t].pc.Counted?
    ensures Inv(c, Step(c, s, t))
  {
    var s' := Step(c, s, t);
    assert Arrived(s'.threads, s'.rounds) == Arrived(s.threads, s.rounds);
    BoundedArrivals(s.threads, s.rounds);
  }

  /** Steps that take the mutex. */
  lemma AcquireInv(c: Config, s: State, t: nat)
    requires Inv(c, s) && Enabled(c, s, t)
    requires s.threads[t].pc.Entering? || s.threads[t].pc.Woken?
    ensures Inv(c, Step(c, s, t))
  {
    var s' := Step(c, s, t);
    assert Arrived(s'.threads, s'.rounds) == Arrived(s.threads, s.rounds);
    BoundedArrivals(s.threads, s.rounds);
  }

  /** Steps that give it back. */
  lemma ReleaseInv(c: Config, s: State, t: nat)
    requires Inv(c, s) && Enabled(c, s, t)
    requires s.threads[t].pc.MustWait? || s.threads[t].pc.Unlock?
    ensures Inv(c, Step(c, s, t))
  {
    var s' := Step(c, s, t);
    assert Arrived(s'.threads, s'.rounds) == Arrived(s.threads, s.rounds);
    BoundedArrivals(s.threads, s.rounds);
  }

  lemma BoundedArrivals(threads: seq<Thread>, round: nat)
    ensures Sum(Arrived(threads, round)) <= |threads|
    ensures Sum(Arrived(threads, round)) == |threads| ==>
              forall t | 0 <= t < |threads| :: threads[t].arrived == round + 1
  {
    var ones: seq<nat> := seq(|threads|, _ => 1);
    SumConstant(ones, 1);
    SumMonotone(Arrived(threads, round), ones);
    if Sum(Arrived(threads, round)) == |threads| {
      forall t | 0 <= t < |threads| ensures threads[t].arrived == round + 1 {
        assert ones[t] == Arrived(threads, round)[t];
      }
    }
  }

  lemma CountStepInv(c: Config, s: State, t: nat)
    requires Inv(c, s) && Enabled(c, s, t) && s.threads[t].pc.Locked?
    ensures Inv(c, Step(c, s, t))
  {
    var s' := Step(c, s, t);
    SumUpdate(Arrived(s.threads, s.rounds), Arrived(s'.threads, s'.rounds), t);
    BoundedArrivals(s'.threads, s'.rounds);
  }

  /** At a broadcast everybody else is asleep, so that everybody is released. */
  lemma OthersAsleep(c: Config, s: State, t: nat)
    requires Inv(c, s) && t < c.count && s.threads[t].pc.Broadcast?
    ensures s.mutex == HeldBy(t) && s.crossed == c.count
    ensures forall u: nat | u < c.count && u != t :: s.threads[u].pc.Asleep?
    ensures forall u: nat | u < c.count :: s.threads[u].arrived == s.rounds + 1
  {
    assert Owns(s, t);
    BoundedArrivals(s.threads, s.rounds);
    forall u: nat | u < c.count && u != t ensures s.threads[u].pc.Asleep? {
      assert ThreadOk(c, s, s.threads[u]);
      assert !Owns(s, u);
    }
  }

  lemma BroadcastInv(c: Config, s: State, t: nat)
    requires Inv(c, s) && Enabled(c, s, t) && s.threads[t].pc.Broadcast?
    ensures Inv(c, Step(c, s, t))
  {
    var s' := Step(c, s, t);
    OthersAsleep(c, s, t);
    hide Arrived;
    NoArrivals(s'.threads, s'.rounds);
    forall u: nat | u < c.count
      ensures ThreadOk(c, s', s'.threads[u]) && (HoldsMutex(s'.threads[u].pc) <==> Owns(s', u))
    {
      assert ThreadOk(c, s, s.threads[u]);
    }
  }

  lemma NoArrivals(threads: seq<Thread>, round: nat)
    requires forall t: nat | t < |threads| :: threads[t].arrived == round
    ensures Sum(Arrived(threads, round)) == 0
  {
    SumConstant(Arrived(threads, round), 0);
  }

  lemma ResetInv(c: Config, s: State, t: nat)
    requires Inv(c, s) && Enabled(c, s, t) && s.threads[t].pc.Reset?
    ensures Inv(c, Step(c, s, t))
  {
    var s' := Step(c, s, t);
    assert Owns(s, t);
    assert Arrived(s'.threads, s'.rounds) == Arrived(s.threads, s.rounds);
  }

  lemma StepInv(c: Config, s: State, t: nat)
    requires Inv(c, s) && Enabled(c, s, t)
    ensures Inv(c, Step(c, s, t))
  {
    hide Inv, Step;
    match s.threads[t].pc
    case Locked => CountStepInv(c, s, t);
    case Broadcast => BroadcastInv(c, s, t);
    case Reset => ResetInv(c, s, t);
    case Outside => EnterInv(c, s, t);
    case Counted => TestInv(c, s, t);
    case MustWait => ReleaseInv(c, s, t);
    case Unlock => ReleaseInv(c, s, t);
    case _ => AcquireInv(c, s, t);
  }

  lemma {:induction false} TraceInv(c: Config, tr: seq<State>, k: nat)
    requires ConfigOk(c) && Trace(c, tr) && k < |tr|
    ensures Inv(c, tr[k])
  {
    hide Inv, Step, Enabled;
    if k == 0 {
      StartInv(c);
    } else {
      var j := k - 1;
      TraceInv(c, tr, j);
      assert Next(c, tr[j], tr[j + 1]);
      var t: nat :| Enabled(c, tr[j], t) && tr[j + 1] == Step(c, tr[j], t);
      StepInv(c, tr[j], t);
    }
  }

  // ---- what the barrier guarantees ----

  /** No thread gets through its `g`-th crossing before every thread has entered its own. */
  lemma NobodyCrossesEarly(c: Config, tr: seq<State>, k: nat, t: nat, u: nat, g: nat)
    requires ConfigOk(c) && Trace(c, tr) && k < |tr| && t < c.count && u < c.count
    ensures |tr[k].threads| == c.count
    ensures tr[k].threads[t].completed >= g ==> tr[k].threads[u].entered >= g && tr[k].threads[u].arrived >= g
  {
    TraceInv(c, tr, k);
    assert ThreadOk(c, tr[k], tr[k].threads[t]);
    assert ThreadOk(c, tr[k], tr[k].threads[u]);
  }

  /** No thread gets ahead by more than one crossing. */
  lemma CrossingsStayClose(c: Config, tr: seq<State>, k: nat, t: nat, u: nat)
    requires ConfigOk(c) && Trace(c, tr) && k < |tr| && t < c.count && u < c.count
    ensures |tr[k].threads| == c.count
    ensures tr[k].threads[t].completed <= tr[k].threads[u].completed + 1
  {
    TraceInv(c, tr, k);
    assert ThreadOk(c, tr[k], tr[k].threads[t]);
    assert ThreadOk(c, tr[k], tr[k].threads[u]);
  }

  /** Whoever takes the mutex finds an incomplete round. */
  lemma FreeMutexMeansRoom(c: Config, tr: seq<State>, k: nat)
    requires ConfigOk(c) && Trace(c, tr) && k < |tr|
    ensures tr[k].mutex.Free? ==> tr[k].crossed < c.count
    ensures tr[k].crossed <= c.count
  {
    TraceInv(c, tr, k);
  }

  /** Mutual exclusion. */
  lemma OneOwner(c: Config, tr: seq<State>, k: nat, t: nat, u: nat)
    requires ConfigOk(c) && Trace(c, tr) && k < |tr| && t < c.count && u < c.count
    ensures |tr[k].threads| == c.count
    ensures HoldsMutex(tr[k].threads[t].pc) && HoldsMutex(tr[k].threads[u].pc) ==> t == u
  {
    TraceInv(c, tr, k);
    assert HoldsMutex(tr[k].threads[t].pc) <==> Owns(tr[k], t);
    assert HoldsMutex(tr[k].threads[u].pc) <==> Owns(tr[k], u);
  }

  ghost predicate Done(c: Config, s: State) {
    forall t | 0 <= t < |s.threads| :: s.threads[t].completed == c.crossings
  }

  lemma SomebodyAwake(c: Config, s: State)
    requires Inv(c, s) && s.mutex.Free?
    ensures exists t: nat :: t < c.count && !s.threads[t].pc.Asleep?
  {
    if forall t: nat | t < c.count :: s.threads[t].pc.Asleep? {
      forall t | 0 <= t < c.count ensures Arrived(s.threads, s.rounds)[t] == 1 {
        assert ThreadOk(c, s, s.threads[t]);
      }
      SumConstant(Arrived(s.threads, s.rounds), 1);
      assert false;
    }
  }

  /** No deadlock: until all threads are through, somebody can take a step. */
  lemma NeverStuck(c: Config, s: State)
    requires Inv(c, s) && !Done(c, s)
    ensures exists s' :: Next(c, s, s')
  {
    var t: nat;
    if s.mutex.HeldBy? {
      t := s.mutex.owner;
      assert Owns(s, t);
    } else if w: nat :| w < c.count && (s.threads[w].pc.Entering? || s.threads[w].pc.Woken?) {
      t := w;
    } else {
      var b: nat :| b < c.count && s.threads[b].completed != c.crossings;
      SomebodyAwake(c, s);
      var a: nat :| a < c.count && !s.threads[a].pc.Asleep?;
      assert ThreadOk(c, s, s.threads[a]) && ThreadOk(c, s, s.threads[b]);
      assert !Owns(s, a) && !Owns(s, b);
      t := a;
    }
    assert Enabled(c, s, t);
    assert Next(c, s, Step(c, s, t));
  }

  // ---- and everybody gets through ----

  function Stage(pc: Pc): (r: nat)
    ensures r <= 7
  {
    match pc
    case Outside => 0
    case Entering => 1
    case Locked => 2
    case Counted => 3
    case MustWait => 4
    case Broadcast => 4
    case Asleep => 5
    case Reset => 5
    case Woken => 6
    case Unlock => 7
  }

  /** Steps a thread still has to take, at most. */
  ghost function ToGo(c: Config, th: Thread): nat {
    var left := 8 * c.crossings - 8 * th.completed - Stage(th.pc);
    if left > 0 then left else 0
  }

  ghost function StepsLeft(c: Config, s: State): (r: seq<nat>)
    ensures |r| == |s.threads|
  {
    seq(|s.threads|, t requires 0 <= t < |s.threads| => ToGo(c, s.threads[t]))
  }

  lemma StepDecreases(c: Config, s: State, t: nat)
    requires Inv(c, s) && Enabled(c, s, t)
    ensures Sum(StepsLeft(c, Step(c, s, t))) < Sum(StepsLeft(c, s))
  {
    assert ThreadOk(c, s, s.threads[t]);
    var a, b := StepsLeft(c, Step(c, s, t)), StepsLeft(c, s);
    assert a[t] < b[t];
    assert forall u | 0 <= u < c.count :: a[u] <= b[u];
    SumMonotone(a, b);
  }

  /** Every run, however it is scheduled, can be continued to one in which all threads are through. */
  lemma {:induction false} EverybodyGetsThrough(c: Config, tr: seq<State>) returns (full: seq<State>)
    requires ConfigOk(c) && Trace(c, tr)
    ensures Trace(c, full) && tr <= full && Done(c, full[|full|-1])
    decreases Sum(StepsLeft(c, tr[|tr|-1]))
  {
    hide Inv, Step, Enabled, StepsLeft;
    TraceInv(c, tr, |tr| - 1);
    var s := tr[|tr|-1];
    if Done(c, s) {
      full := tr;
    } else {
      NeverStuck(c, s);
      var s' :| Next(c, s, s');
      var t: nat :| Enabled(c, s, t) && s' == Step(c, s, t);
      var longer := tr + [s'];
      assert Trace(c, longer);
      TraceInv(c, longer, |longer| - 1);
      StepDecreases(c, s, t);
      full := EverybodyGetsThrough(c, longer);
    }
  }

  lemma {:induction false} RunLength(c: Config, tr: seq<State>, k: nat)
    requires ConfigOk(c) && Trace(c, tr) && k < |tr|
    ensures k + Sum(StepsLeft(c, tr[k])) <= c.count * (8 * c.crossings)
  {
    hide Inv, Step, Enabled, StepsLeft;
    if k == 0 {
      StartToGo(c);
    } else {
      var j := k - 1;
      TraceInv(c, tr, j);
      assert Next(c, tr[j], tr[j + 1]);
      var t: nat :| Enabled(c, tr[j], t) && tr[j + 1] == Step(c, tr[j], t);
      StepDecreases(c, tr[j], t);
      RunLength(c, tr, j);
    }
  }

  lemma StartToGo(c: Config)
    ensures Sum(StepsLeft(c, Start(c))) == c.count * (8 * c.crossings)
  {
    SumConstant(StepsLeft(c, Start(c)), 8 * c.crossings);
  }

  /** No schedule keeps the threads busy for ever: a run has at most eight steps per thread and crossing. */
  lemma RunsAreBounded(c: Config, tr: seq<State>)
    requires ConfigOk(c) && Trace(c, tr)
    ensures |tr| <= c.count * (8 * c.crossings) + 1
  {
    hide Inv, StepsLeft;
    TraceInv(c, tr, |tr| - 1);
    RunLength(c, tr, |tr| - 1);
  }
}
