/**
 * The edge accounting of `bfs_pushpull`: the per-range counters, the thread-local and shared sums
 * they are flushed to, and the test that decides whether to switch to the pull phase.
 */
module BfsAccounting {
  import opened Sums
  import opened Words
  import opened Graphs
  import opened PushRounds
  import opened PullPasses
  import opened BfsSearch

  /**
   * A push round with its counters. `localExplored` and `localEdges` live in registers of a worker
   * until the end of its range; `edges` is the worker's slot of the combinable sum.
   */
  datatype Counted = Counted(base: State, localExplored: seq<nat>, localEdges: seq<nat>,
                             explored: nat, edges: seq<nat>)

  ghost function OutDegrees(out: Csr, n: nat): (r: seq<nat>)
    requires WellFormed(out, n)
    ensures |r| == n
  {
    seq(n, v requires 0 <= v < n => out.offsets[v + 1] - out.offsets[v])
  }

  ghost function CountedStart(c: Env, explored0: nat): Counted {
    Counted(Start(c), seq(c.threads, _ => 0), seq(c.threads, _ => 0), explored0, seq(c.threads, _ => 0))
  }

  ghost predicate CountedSized(c: Env, s: Counted) {
    && Sized(c, s.base)
    && |s.localExplored| == |s.localEdges| == |s.edges| == c.threads
  }

  // ---- steps ----

  ghost predicate CountedTake(c: Env, s: Counted, s': Counted, t: nat, i: nat)
    requires EnvOk(c) && CountedSized(c, s) && t < c.threads
  {
    && Take(c, s.base, s'.base, t, i)
    && s' == s.(base := s'.base,
                localExplored := s.localExplored[t := s.localExplored[t] + OutDegrees(c.out, c.n)[c.frontier[i]]])
  }

  ghost predicate CountedAdvance(c: Env, s: Counted, s': Counted, t: nat)
    requires EnvOk(c) && CountedSized(c, s) && t < c.threads
  {
    !s.base.pcs[t].Idle? &&
    var b := Advance(c, s.base, t);
    s' == if s.base.pcs[t].Push?
          then PcDst(c, s.base, t);
               s.(base := b, localEdges := s.localEdges[t := s.localEdges[t] + OutDegrees(c.out, c.n)[s.base.pcs[t].dst]])
          else s.(base := b)
  }

  lemma PcDst(c: Env, s: State, t: nat)
    requires Sized(c, s) && t < c.threads && s.pcs[t].Push?
    ensures s.pcs[t].dst < c.n
  {
    assert PcOk(c, s.pcs[t]);
  }

  /** The two flushes at the end of a range are separate steps. Flushing a zero changes nothing and is no step. */
  ghost predicate FlushEdges(c: Env, s: Counted, s': Counted, t: nat)
    requires CountedSized(c, s) && t < c.threads
  {
    && s.base.pcs[t].Idle? && s.localEdges[t] > 0
    && s' == s.(edges := s.edges[t := s.edges[t] + s.localEdges[t]], localEdges := s.localEdges[t := 0])
  }

  ghost predicate FlushExplored(c: Env, s: Counted, s': Counted, t: nat)
    requires CountedSized(c, s) && t < c.threads
  {
    && s.base.pcs[t].Idle? && s.localExplored[t] > 0
    && s' == s.(explored := s.explored + s.localExplored[t], localExplored := s.localExplored[t := 0])
  }

  ghost predicate CountedStep(c: Env, s: Counted, s': Counted, t: nat)
    requires EnvOk(c) && CountedSized(c, s) && t < c.threads
  {
    || (exists i :: CountedTake(c, s, s', t, i))
    || CountedAdvance(c, s, s', t)
    || FlushEdges(c, s, s', t)
    || FlushExplored(c, s, s', t)
  }

  ghost predicate CountedNext(c: Env, s: Counted, s': Counted)
    requires EnvOk(c)
  {
    CountedSized(c, s) && exists t :: 0 <= t < c.threads && CountedStep(c, s, s', t)
  }

  ghost predicate CountedTrace(c: Env, explored0: nat, tr: seq<Counted>)
    requires EnvOk(c)
  {
    && |tr| > 0 && tr[0] == CountedStart(c, explored0)
    && forall i | 0 <= i < |tr| - 1 :: CountedNext(c, tr[i], tr[i+1])
  }

  ghost predicate CountedDone(s: Counted) {
    && Done(s.base)
    && (forall t | 0 <= t < |s.localExplored| :: s.localExplored[t] == 0)
    && (forall t | 0 <= t < |s.localEdges| :: s.localEdges[t] == 0)
  }

  // ---- the invariant ----

  /** Out-degrees of the frontier entries that have been taken, zero for the others. */
  ghost function Taken(c: Env, s: State): (r: seq<nat>)
    requires EnvOk(c)
    ensures |r| == |c.frontier|
  {
    seq(|c.frontier|, i requires 0 <= i < |c.frontier| =>
      if i in s.pending then 0 else OutDegrees(c.out, c.n)[c.frontier[i]])
  }

  ghost predicate CountedInv(c: Env, explored0: nat, s: Counted) {
    && Inv(c, s.base) && CountedSized(c, s)
    && s.explored + Sum(s.localExplored) == explored0 + Sum(Taken(c, s.base))
    && (forall t | 0 <= t < c.threads ::
          s.edges[t] + s.localEdges[t] == Sum(Pick(OutDegrees(c.out, c.n), s.base.buffers[t])))
  }

  lemma CountedStartInv(c: Env, explored0: nat)
    requires EnvOk(c)
    ensures CountedInv(c, explored0, CountedStart(c, explored0))
  {
    StartInv(c);
    SumConstant(CountedStart(c, explored0).localExplored, 0);
    SumConstant(Taken(c, Start(c)), 0);
  }

  lemma CountedTakeInv(c: Env, explored0: nat, s: Counted, s': Counted, t: nat, i: nat)
    requires CountedInv(c, explored0, s) && t < c.threads && CountedTake(c, s, s', t, i)
    ensures CountedInv(c, explored0, s')
  {
    TakeInv(c, s.base, s'.base, t, i);
    SumUpdate(s.localExplored, s'.localExplored, t);
    SumUpdate(Taken(c, s.base), Taken(c, s'.base), i);
  }

  lemma InvEnv(c: Env, s: State)
    requires Inv(c, s)
    ensures EnvOk(c) && WellFormed(c.out, c.n) && Sized(c, s)
  {
  }

  lemma CountedAdvanceInv(c: Env, explored0: nat, s: Counted, s': Counted, t: nat)
    requires CountedInv(c, explored0, s) && t < c.threads && CountedAdvance(c, s, s', t)
    ensures CountedInv(c, explored0, s')
  {
    hide Inv, EnvOk;
    InvEnv(c, s.base);
    AdvanceInv(c, s.base, t);
    assert Taken(c, s'.base) == Taken(c, s.base);
    if s.base.pcs[t].Push? {
      PcDst(c, s.base, t);
      var b, d := s.base.buffers[t], s.base.pcs[t].dst;
      var w := OutDegrees(c.out, c.n);
      assert Pick(w, b + [d]) == Pick(w, b) + [w[d]];
      SumConcat(Pick(w, b), [w[d]]);
    }
  }

  lemma FlushInv(c: Env, explored0: nat, s: Counted, s': Counted, t: nat)
    requires CountedInv(c, explored0, s) && t < c.threads
    requires FlushEdges(c, s, s', t) || FlushExplored(c, s, s', t)
    ensures CountedInv(c, explored0, s')
  {
    if FlushExplored(c, s, s', t) {
      SumUpdate(s.localExplored, s'.localExplored, t);
    }
  }

  lemma CountedNextInv(c: Env, explored0: nat, s: Counted, s': Counted)
    requires CountedInv(c, explored0, s) && CountedNext(c, s, s')
    ensures CountedInv(c, explored0, s')
    ensures s'.base == s.base || Next(c, s.base, s'.base)
  {
    var t :| 0 <= t < c.threads && CountedStep(c, s, s', t);
    if i :| CountedTake(c, s, s', t, i) {
      CountedTakeInv(c, explored0, s, s', t, i);
      assert Step(c, s.base, s'.base, t);
    } else if CountedAdvance(c, s, s', t) {
      CountedAdvanceInv(c, explored0, s, s', t);
      assert Step(c, s.base, s'.base, t);
    } else {
      FlushInv(c, explored0, s, s', t);
    }
  }

  /** Forgetting the counters turns every counted run into a run of the plain round. */
  lemma {:induction false} Project(c: Env, explored0: nat, tr: seq<Counted>, k: nat) returns (base: seq<State>)
    requires EnvOk(c) && CountedTrace(c, explored0, tr) && k < |tr|
    ensures CountedInv(c, explored0, tr[k])
    ensures Trace(c, base) && base[|base|-1] == tr[k].base
  {
    if k == 0 {
      CountedStartInv(c, explored0);
      base := [Start(c)];
    } else {
      base := Project(c, explored0, tr, k - 1);
      CountedNextInv(c, explored0, tr[k-1], tr[k]);
      if tr[k].base != tr[k-1].base {
        ExtendTrace(c, base, tr[k].base);
        base := base + [tr[k].base];
      }
    }
  }

  lemma {:induction false} ConcatSum(w: seq<nat>, buffers: seq<seq<nat>>, sums: seq<nat>)
    requires |buffers| == |sums|
    requires forall t | 0 <= t < |buffers| :: Below(buffers[t], |w|) && sums[t] == Sum(Pick(w, buffers[t]))
    ensures Below(Concat(buffers), |w|) && Sum(Pick(w, Concat(buffers))) == Sum(sums)
  {
    if |buffers| > 0 {
      var m := |buffers| - 1;
      ConcatSum(w, buffers[..m], sums[..m]);
      assert Pick(w, Concat(buffers)) == Pick(w, Concat(buffers[..m])) + Pick(w, buffers[m]);
      SumConcat(Pick(w, Concat(buffers[..m])), Pick(w, buffers[m]));
    }
  }

  /** What the counters hold after the join. */
  lemma CountedResult(c: Env, explored0: nat, s: Counted)
    requires CountedInv(c, explored0, s) && CountedDone(s)
    ensures Below(Concat(s.base.buffers), c.n)
    ensures s.explored == explored0 + Sum(Pick(OutDegrees(c.out, c.n), c.frontier))
    ensures Sum(s.edges) == Sum(Pick(OutDegrees(c.out, c.n), Concat(s.base.buffers)))
  {
    SumConstant(s.localExplored, 0);
    assert Taken(c, s.base) == Pick(OutDegrees(c.out, c.n), c.frontier);
    ConcatSum(OutDegrees(c.out, c.n), s.base.buffers, s.edges);
  }

  // ---- no schedule of a counted round gets stuck, and none runs for ever ----

  lemma CountedNeverStuck(c: Env, explored0: nat, s: Counted)
    requires CountedInv(c, explored0, s) && !CountedDone(s)
    ensures exists s' :: CountedNext(c, s, s')
  {
    hide Inv, EnvOk;
    InvEnv(c, s.base);
    var s', t: nat;
    if !Done(s.base) {
      NeverStuck(c, s.base);
      var b :| Next(c, s.base, b);
      var v :| 0 <= v < c.threads && Step(c, s.base, b, v);
      t := v;
      s' := CountedMove(c, s, b, t);
    } else if u: nat :| u < c.threads && s.localExplored[u] != 0 {
      t := u;
      s' := s.(explored := s.explored + s.localExplored[t], localExplored := s.localExplored[t := 0]);
      assert FlushExplored(c, s, s', t);
    } else {
      var v: nat :| v < c.threads && s.localEdges[v] != 0;
      t := v;
      s' := s.(edges := s.edges[t := s.edges[t] + s.localEdges[t]], localEdges := s.localEdges[t := 0]);
      assert FlushEdges(c, s, s', t);
    }
    assert CountedStep(c, s, s', t);
    assert CountedNext(c, s, s');
  }

  /** A step of the plain round, with its counting. */
  lemma CountedMove(c: Env, s: Counted, b: State, t: nat) returns (s': Counted)
    requires EnvOk(c) && CountedSized(c, s) && t < c.threads && Step(c, s.base, b, t)
    ensures CountedStep(c, s, s', t)
  {
    var w := OutDegrees(c.out, c.n);
    if s.base.pcs[t].Idle? {
      var i: nat :| Take(c, s.base, b, t, i);
      assert i in UpTo(|c.frontier|);
      s' := s.(base := b, localExplored := s.localExplored[t := s.localExplored[t] + w[c.frontier[i]]]);
      assert CountedTake(c, s, s', t, i);
    } else {
      s' := s.(base := b);
      if s.base.pcs[t].Push? {
        PcDst(c, s.base, t);
        s' := s'.(localEdges := s.localEdges[t := s.localEdges[t] + w[s.base.pcs[t].dst]]);
      }
      assert CountedAdvance(c, s, s', t);
    }
  }

  /** One for every worker with something to flush. */
  ghost function Nonzero(counts: seq<nat>): (r: seq<nat>)
    ensures |r| == |counts|
  {
    seq(|counts|, t requires 0 <= t < |counts| => if counts[t] > 0 then 1 else 0)
  }

  lemma NonzeroUpdate(a: seq<nat>, t: nat, x: nat)
    requires t < |a|
    ensures Sum(Nonzero(a[t := x])) <= Sum(Nonzero(a)) + 1
    ensures a[t] > 0 && x == 0 ==> Sum(Nonzero(a[t := x])) < Sum(Nonzero(a))
  {
    SumUpdate(Nonzero(a), Nonzero(a[t := x]), t);
  }

  /** An upper bound for the number of steps that are still to come, flushes included. */
  ghost function CountedRemaining(c: Env, s: Counted): nat {
    2 * Remaining(c, s.base) + Sum(Nonzero(s.localExplored)) + Sum(Nonzero(s.localEdges))
  }

  lemma CountedDecreases(c: Env, explored0: nat, s: Counted, s': Counted)
    requires CountedInv(c, explored0, s) && CountedNext(c, s, s')
    ensures CountedRemaining(c, s') < CountedRemaining(c, s)
  {
    hide Inv, EnvOk, Remaining, Sum, Nonzero;
    InvEnv(c, s.base);
    var t :| 0 <= t < c.threads && CountedStep(c, s, s', t);
    if i :| CountedTake(c, s, s', t, i) {
      TakeDecreases(c, s.base, s'.base, t, i);
      NonzeroUpdate(s.localExplored, t, s'.localExplored[t]);
    } else if CountedAdvance(c, s, s', t) {
      AdvanceDecreases(c, s.base, t);
      NonzeroUpdate(s.localEdges, t, s'.localEdges[t]);
      assert s'.localEdges == s.localEdges || s'.localEdges == s.localEdges[t := s'.localEdges[t]];
    } else if FlushEdges(c, s, s', t) {
      NonzeroUpdate(s.localEdges, t, 0);
    } else {
      NonzeroUpdate(s.localExplored, t, 0);
    }
  }

  lemma CountedRemainingAtStart(c: Env, explored0: nat)
    ensures CountedRemaining(c, CountedStart(c, explored0)) == 2 * Budget(|c.frontier|, |c.out.edges|)
  {
    var s := CountedStart(c, explored0);
    SumConstant(Works(s.base), 0);
    SumConstant(Nonzero(s.localExplored), 0);
    SumConstant(Nonzero(s.localEdges), 0);
  }

  /** Every run of a counted round is finite, with a bound that does not depend on the schedule. */
  lemma {:induction false} CountedRunsAreBounded(c: Env, explored0: nat, tr: seq<Counted>, k: nat)
    requires EnvOk(c) && CountedTrace(c, explored0, tr) && k < |tr|
    ensures k + CountedRemaining(c, tr[k]) <= 2 * Budget(|c.frontier|, |c.out.edges|)
  {
    hide CountedRemaining, CountedNext, CountedStart, Budget;
    if k == 0 {
      CountedRemainingAtStart(c, explored0);
    } else {
      CountedRunsAreBounded(c, explored0, tr, k - 1);
      var base := Project(c, explored0, tr, k - 1);
      CountedDecreases(c, explored0, tr[k-1], tr[k]);
    }
  }

  /** Every run of a counted round can be continued until everything is flushed. */
  lemma {:induction false} CompleteCounted(c: Env, explored0: nat, tr: seq<Counted>) returns (full: seq<Counted>)
    requires EnvOk(c) && CountedTrace(c, explored0, tr)
    ensures CountedTrace(c, explored0, full) && CountedDone(full[|full|-1]) && tr <= full
    decreases 2 * Budget(|c.frontier|, |c.out.edges|) + 1 - |tr|
  {
    hide EnvOk, CountedNext, CountedInv, CountedRemaining, CountedStart, Budget;
    var s := tr[|tr|-1];
    var base := Project(c, explored0, tr, |tr| - 1);
    CountedRunsAreBounded(c, explored0, tr, |tr| - 1);
    if CountedDone(s) {
      full := tr;
    } else {
      CountedNeverStuck(c, explored0, s);
      var s' :| CountedNext(c, s, s');
      full := CompleteCounted(c, explored0, tr + [s']);
    }
  }

  // ---- the push loop with its switch test ----

  datatype CountedHead = CountedHead(head: Head, explored: nat, edgesInFrontier: nat)

  /** The combinable sum starts out empty: the out-degree of the start vertex is not in it. */
  ghost function CountedPushStart(g: Instance): CountedHead
    requires g.start < g.n
  {
    CountedHead(PushStart(g), 0, 0)
  }

  ghost predicate CountedRoundBy(g: Instance, h: CountedHead, h': CountedHead, tr: seq<Counted>) {
    var c := RoundEnv(g, h.head, false);
    && h.head.frontier != []
    && EnvOk(c) && CountedTrace(c, h.explored, tr) && CountedDone(tr[|tr|-1])
    && h'.head.visited == tr[|tr|-1].base.visited
    && multiset(h'.head.frontier) == multiset(Concat(tr[|tr|-1].base.buffers))
    && h'.head.iterations == h.head.iterations + 1
    && h'.explored == tr[|tr|-1].explored
    && h'.edgesInFrontier == Sum(tr[|tr|-1].edges)
  }

  ghost predicate CountedRound(g: Instance, h: CountedHead, h': CountedHead) {
    exists tr :: CountedRoundBy(g, h, h', tr)
  }

  ghost predicate CountedRun(g: Instance, hs: seq<CountedHead>) {
    && g.start < g.n
    && |hs| > 0 && hs[0] == CountedPushStart(g)
    && forall i | 0 <= i < |hs| - 1 :: CountedRound(g, hs[i], hs[i+1])
  }

  /** `edges_in_frontier > NB_EDGES - explored`, with the subtraction of unsigned 64-bit numbers. */
  ghost predicate SwitchTest(g: Instance, h: CountedHead) {
    h.edgesInFrontier > (|g.out.edges| - h.explored) % SIZE_T
  }

  ghost predicate Accounted(g: Instance, h: CountedHead, k: nat)
    requires InstanceOk(g)
  {
    var w, level := OutDegrees(g.out, g.n), Level(g.es, g.start, k);
    && AtLevel(g, h.head, k)
    && h.explored == SetSum(w, Ball(g.es, g.start, k) - level)
    && h.edgesInFrontier == if k == 0 then 0 else SetSum(w, level)
  }

  lemma DegreesAddUp(c: Csr, n: nat, k: nat)
    requires WellFormed(c, n) && k <= n
    ensures Sum(OutDegrees(c, n)[..k]) == c.offsets[k]
  {
    if k > 0 {
      DegreesAddUp(c, n, k - 1);
      SumPrefix(OutDegrees(c, n), k - 1);
    }
  }

  lemma CountedRoundCounts(g: Instance, h: CountedHead, h': CountedHead, k: nat)
    requires InstanceOk(g) && AtLevel(g, h.head, k) && CountedRound(g, h, h')
    ensures PushRound(g, false, h.head, h'.head)
    ensures Below(h.head.frontier, g.n) && Below(h'.head.frontier, g.n)
    ensures h'.explored == h.explored + Sum(Pick(OutDegrees(g.out, g.n), h.head.frontier))
    ensures h'.edgesInFrontier == Sum(Pick(OutDegrees(g.out, g.n), h'.head.frontier))
  {
    var tr: seq<Counted> :| CountedRoundBy(g, h, h', tr);
    var c := RoundEnv(g, h.head, false);
    var base := Project(c, h.explored, tr, |tr| - 1);
    assert PushRoundBy(g, false, h.head, h'.head, base);
    CountedResult(c, h.explored, tr[|tr|-1]);
    PickMultiset(OutDegrees(g.out, g.n), Concat(tr[|tr|-1].base.buffers), h'.head.frontier);
  }

  lemma FrontierSum(g: Instance, h: Head, k: nat)
    requires InstanceOk(g) && AtLevel(g, h, k)
    ensures Below(h.frontier, g.n)
    ensures Sum(Pick(OutDegrees(g.out, g.n), h.frontier)) == SetSum(OutDegrees(g.out, g.n), Level(g.es, g.start, k))
  {
    LevelEnvOk(g, h, k, false);
    PickIsSetSum(OutDegrees(g.out, g.n), h.frontier);
  }

  /** A round that adds the right amounts keeps the accounts. */
  lemma AccountsAfter(g: Instance, h: CountedHead, h': CountedHead, j: nat, k: nat)
    requires InstanceOk(g) && k == j + 1 && Accounted(g, h, j) && AtLevel(g, h'.head, k)
    requires Below(h.head.frontier, g.n) && Below(h'.head.frontier, g.n)
    requires h'.explored == h.explored + Sum(Pick(OutDegrees(g.out, g.n), h.head.frontier))
    requires h'.edgesInFrontier == Sum(Pick(OutDegrees(g.out, g.n), h'.head.frontier))
    ensures Accounted(g, h', k)
  {
    FrontierSum(g, h.head, j);
    FrontierSum(g, h'.head, k);
    ProcessedGrows(OutDegrees(g.out, g.n), g.es, g.start, j, k);
  }

  lemma CountedRoundAccounts(g: Instance, h: CountedHead, h': CountedHead, j: nat, k: nat)
    requires InstanceOk(g) && k == j + 1 && Accounted(g, h, j) && CountedRound(g, h, h')
    ensures Accounted(g, h', k)
  {
    CountedRoundCounts(g, h, h', j);
    RoundReachesNextLevel(g, false, h.head, h'.head, j, k);
    AccountsAfter(g, h, h', j, k);
  }

  lemma ProcessedGrows(w: seq<nat>, es: seq<Edge>, s: nat, j: nat, k: nat)
    requires k == j + 1
    ensures SetSum(w, Ball(es, s, k) - Level(es, s, k))
         == SetSum(w, Ball(es, s, j) - Level(es, s, j)) + SetSum(w, Level(es, s, j))
  {
    LevelStep(es, s, j, k);
    var ball, last := Ball(es, s, j), Level(es, s, j);
    SetSumUnion(w, ball - last, last);
    assert ball - last + last == ball;
    assert Ball(es, s, k) - Level(es, s, k) == ball;
  }

  lemma StartAccounted(g: Instance)
    requires InstanceOk(g)
    ensures Accounted(g, CountedPushStart(g), 0)
  {
    StartIsLevelZero(g);
    SumConstant(Masked(OutDegrees(g.out, g.n), {}), 0);
    assert Ball(g.es, g.start, 0) - Level(g.es, g.start, 0) == {};
  }

  /**
   * At every head of the push loop: `explored` is the out-degree sum of the processed vertices, and
   * `edges_in_frontier` that of the frontier, except that the first head has not counted the start.
   */
  lemma {:induction false} CountedHeads(g: Instance, hs: seq<CountedHead>, k: nat)
    requires InstanceOk(g) && CountedRun(g, hs) && k < |hs|
    ensures Accounted(g, hs[k], k)
    ensures var w, level := OutDegrees(g.out, g.n), Level(g.es, g.start, k);
      && hs[k].explored == SetSum(w, Ball(g.es, g.start, k) - level)
      && hs[k].edgesInFrontier == if k == 0 then 0 else SetSum(w, level)
  {
    if k == 0 {
      StartAccounted(g);
    } else {
      CountedHeads(g, hs, k - 1);
      assert CountedRound(g, hs[k-1], hs[k]);
      CountedRoundAccounts(g, hs[k-1], hs[k], k - 1, k);
    }
  }

  /** Accounts that are kept exclude the switch. */
  lemma AccountsStayBelow(g: Instance, h: CountedHead, k: nat)
    requires InstanceOk(g) && Accounted(g, h, k)
    ensures h.explored + h.edgesInFrontier <= |g.out.edges|
    ensures |g.out.edges| < SIZE_T ==> !SwitchTest(g, h)
  {
    var w := OutDegrees(g.out, g.n);
    var ball, level := Ball(g.es, g.start, k), Level(g.es, g.start, k);
    SetSumUnion(w, ball - level, level);
    DegreesAddUp(g.out, g.n, g.n);
    assert w[..g.n] == w;
  }

  /**
   * In every run and at every head the two counters together stay within the number of edges: the
   * subtraction never wraps around, and the strict switch test is never true.
   */
  lemma SwitchNeverTaken(g: Instance, hs: seq<CountedHead>, k: nat)
    requires InstanceOk(g) && CountedRun(g, hs) && k < |hs|
    requires |g.out.edges| < SIZE_T
    ensures hs[k].explored + hs[k].edgesInFrontier <= |g.out.edges|
    ensures !SwitchTest(g, hs[k])
  {
    CountedHeads(g, hs, k);
    AccountsStayBelow(g, hs[k], k);
  }

  /** While the frontier is not empty, another counted round can be run. */
  lemma AnotherCountedRound(g: Instance, h: CountedHead, k: nat) returns (h': CountedHead)
    requires InstanceOk(g) && AtLevel(g, h.head, k) && h.head.frontier != []
    ensures CountedRound(g, h, h')
  {
    LevelEnvOk(g, h.head, k, false);
    var c := RoundEnv(g, h.head, false);
    var tr := CompleteCounted(c, h.explored, [CountedStart(c, h.explored)]);
    var s := tr[|tr|-1];
    h' := CountedHead(Head(s.base.visited, Concat(s.base.buffers), h.head.iterations + 1), s.explored, Sum(s.edges));
    assert CountedRoundBy(g, h, h', tr);
  }

  lemma CountedHeadBound(g: Instance, hs: seq<CountedHead>)
    requires InstanceOk(g) && CountedRun(g, hs)
    ensures |hs| <= g.n + 1
  {
    hide Ball, Level, InstanceOk;
    var k := |hs| - 1;
    if k > 0 {
      CountedHeads(g, hs, k - 1);
      assert CountedRound(g, hs[k-1], hs[k]);
      LevelEnvOk(g, hs[k-1].head, k - 1, false);
      LevelBound(g, k - 1);
    }
  }

  /** Every run of the counted push loop can be continued until the frontier is empty. */
  lemma {:induction false} CompleteCountedPush(g: Instance, hs: seq<CountedHead>) returns (full: seq<CountedHead>)
    requires InstanceOk(g) && CountedRun(g, hs)
    ensures CountedRun(g, full) && full[|full|-1].head.frontier == [] && hs <= full
    decreases g.n + 1 - |hs|
  {
    hide InstanceOk, CountedRound, AtLevel, Ball, Level;
    var h := hs[|hs|-1];
    if h.head.frontier == [] {
      full := hs;
    } else {
      CountedHeads(g, hs, |hs| - 1);
      var h' := AnotherCountedRound(g, h, |hs| - 1);
      CountedHeadBound(g, hs + [h']);
      full := CompleteCountedPush(g, hs + [h']);
    }
  }

  /**
   * The push loop is left when the frontier is empty or the switch test holds. It is always left for
   * the first reason, and the pull phase that follows is a single pass that finds nothing.
   */
  lemma PushPullFallsThrough(g: Instance, hs: seq<CountedHead>, ps: seq<PullHead>)
    requires InstanceOk(g) && InRowsLoaded(g) && |g.out.edges| < SIZE_T && CountedRun(g, hs)
    requires hs[|hs|-1].head.frontier == [] || SwitchTest(g, hs[|hs|-1])
    requires PullRun(g, PullHead(hs[|hs|-1].head.visited, Seed(g.n, hs[|hs|-1].head.frontier), 0, true), ps)
    ensures hs[|hs|-1].head.frontier == []
    ensures |ps| == 2 && !ps[1].cont && ps[1].visited == hs[|hs|-1].head.visited
  {
    hide Ball, Level, InstanceOk, AtLevel;
    var k := |hs| - 1;
    var h := hs[k].head;
    SwitchNeverTaken(g, hs, k);
    CountedHeads(g, hs, k);
    LevelEnvOk(g, h, k, false);
    SeedIsLevel(g, h, k);
    PullFindsNothing(g, PullHead(h.visited, Seed(g.n, h.frontier), 0, true), ps, k);
  }

  /** Exactly when `edges_in_frontier` is the out-degree sum of the frontier. */
  lemma EdgesInFrontierExactly(g: Instance, hs: seq<CountedHead>, k: nat)
    requires InstanceOk(g) && CountedRun(g, hs) && k < |hs|
    ensures Below(hs[k].head.frontier, g.n)
    ensures hs[k].edgesInFrontier == Sum(Pick(OutDegrees(g.out, g.n), hs[k].head.frontier))
            <==> k > 0 || Degree(g.es, g.start) == 0
  {
    CountedHeads(g, hs, k);
    FrontierSum(g, hs[k].head, k);
    var w := OutDegrees(g.out, g.n);
    if k == 0 {
      assert Pick(w, [g.start]) == [w[g.start]];
      SegmentCount(g.out, g.n, g.es, g.start, 0);
      assert Sum([w[g.start]]) == w[g.start];
    }
  }

  /** One vertex with a loop. */
  ghost function Loop(): Instance {
    Instance(1, 1, [Edge(0, 0)], Csr([0, 1], [0]), Csr([0, 1], [0]), 0)
  }

  lemma LoopOk()
    ensures InstanceOk(Loop())
  {
    var g := Loop();
    assert Dsts(g.es, 0) == [0] by {
      assert g.es[..0] == [];
    }
    assert Segment(g.out, 1, 0) == [0];
  }

  /** Its edge is not counted in front of the first round, although its vertex is the frontier. */
  lemma FirstHeadExample()
    ensures var g := Loop();
      && InstanceOk(g) && CountedRun(g, [CountedPushStart(g)])
      && CountedPushStart(g).edgesInFrontier == 0
      && Sum(Pick(OutDegrees(g.out, g.n), PushStart(g).frontier)) == 1
  {
    hide InstanceOk, Sum;
    LoopOk();
    var g := Loop();
    assert Pick(OutDegrees(g.out, 1), [0]) == [1];
    SumOfOne(1);
  }

  lemma SumOfOne(x: nat)
    ensures Sum([x]) == x
  {
  }
}
