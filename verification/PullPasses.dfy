/**
 * One parallel pass of the pull search (`bfs_pull`, and the second half of `bfs_pushpull`) as a
 * transition system. Workers take vertices that nobody has taken; the read of `visited`, every read
 * of `in_frontier`, the two stores and the store to the shared `cont` are separate steps.
 */
module PullPasses {
  import opened Sums
  import opened Graphs
  import opened PushRounds

  datatype PullEnv = PullEnv(n: nat, threads: nat, es: seq<Edge>, inn: Csr,
                             inFrontier: seq<bool>, visited0: seq<nat>)

  datatype PullPc =
    | Resting
    | Check(dst: nat)
    | Look(dst: nat, pos: nat)
    | Mark(dst: nat)
    | MarkNext(dst: nat)

  /** `local` holds the workers' `local_cont`; `cont` is the flag they share. */
  datatype PullState = PullState(visited: seq<nat>, next: seq<bool>, pending: set<nat>,
                                 pcs: seq<PullPc>, local: seq<bool>, cont: bool)

  ghost predicate PullEnvOk(c: PullEnv) {
    && c.threads > 0
    && InRange(c.es, c.n) && Represents(c.inn, c.n, Reverse(c.es))
    && |c.inFrontier| == c.n && Flags(c.visited0, c.n)
  }

  ghost function FlagSet(flags: seq<bool>): set<nat> {
    set v | 0 <= v < |flags| && flags[v]
  }

  ghost function PullFringe(c: PullEnv): set<nat> {
    Successors(c.es, FlagSet(c.inFrontier))
  }

  ghost function PullStart(c: PullEnv): PullState {
    PullState(c.visited0, seq(c.n, _ => false), UpTo(c.n),
              seq(c.threads, _ => Resting), seq(c.threads, _ => false), false)
  }

  // ---- steps ----

  ghost predicate PullSized(c: PullEnv, s: PullState)
    requires PullEnvOk(c)
  {
    && Flags(s.visited, c.n) && |s.next| == c.n && s.pending <= UpTo(c.n)
    && |s.pcs| == c.threads && |s.local| == c.threads
    && (forall t | 0 <= t < c.threads && !s.pcs[t].Resting? :: s.pcs[t].dst < c.n)
    && (forall t | 0 <= t < c.threads && s.pcs[t].Look? ::
          c.inn.offsets[s.pcs[t].dst] <= s.pcs[t].pos <= c.inn.offsets[s.pcs[t].dst + 1])
  }

  ghost predicate PullTake(s: PullState, s': PullState, t: nat, v: nat)
    requires t < |s.pcs|
  {
    s.pcs[t].Resting? && v in s.pending
    && s' == s.(pending := s.pending - {v}, pcs := s.pcs[t := Check(v)])
  }

  /** End of a range: a worker that found something says so in the shared flag. */
  ghost predicate Flush(s: PullState, s': PullState, t: nat)
    requires t < |s.pcs| == |s.local|
  {
    s.pcs[t].Resting? && s.local[t] && s' == s.(local := s.local[t := false], cont := true)
  }

  lemma InEdge(c: PullEnv, v: nat, p: nat)
    requires PullEnvOk(c) && v < c.n && c.inn.offsets[v] <= p < c.inn.offsets[v + 1]
    ensures p < |c.inn.edges| && c.inn.edges[p] < c.n && Edge(c.inn.edges[p], v) in c.es
  {
    assert c.inn.offsets[v + 1] <= c.inn.offsets[c.n];
    var u := c.inn.edges[p];
    assert Segment(c.inn, c.n, v)[p - c.inn.offsets[v]] == u;
    SegmentCount(c.inn, c.n, Reverse(c.es), v, u);
    assert Edge(v, u) in multiset(Reverse(c.es));
    ReverseCount(c.es, u, v);
    assert Edge(u, v) in multiset(c.es);
  }

  lemma InEdgePosition(c: PullEnv, u: nat, v: nat) returns (p: nat)
    requires PullEnvOk(c) && v < c.n && Edge(u, v) in c.es
    ensures c.inn.offsets[v] <= p < c.inn.offsets[v + 1] <= |c.inn.edges| && c.inn.edges[p] == u
  {
    assert c.inn.offsets[v + 1] <= c.inn.offsets[c.n];
    assert Edge(u, v) in multiset(c.es);
    ReverseCount(c.es, u, v);
    assert Edge(v, u) in multiset(Reverse(c.es));
    SegmentCount(c.inn, c.n, Reverse(c.es), v, u);
    var q :| 0 <= q < |Segment(c.inn, c.n, v)| && Segment(c.inn, c.n, v)[q] == u;
    p := c.inn.offsets[v] + q;
  }

  ghost function PullAdvance(c: PullEnv, s: PullState, t: nat): PullState
    requires PullEnvOk(c) && PullSized(c, s) && t < c.threads && !s.pcs[t].Resting?
  {
    match s.pcs[t]
    case Check(v) =>
      s.(pcs := s.pcs[t := if s.visited[v] != 0 then Resting else Look(v, c.inn.offsets[v])])
    case Look(v, pos) =>
      if pos == c.inn.offsets[v + 1] then s.(pcs := s.pcs[t := Resting])
      else
        InEdge(c, v, pos);
        if c.inFrontier[c.inn.edges[pos]]
        then s.(pcs := s.pcs[t := Mark(v)], local := s.local[t := true])
        else s.(pcs := s.pcs[t := Look(v, pos + 1)])
    case Mark(v) => s.(visited := s.visited[v := 1], pcs := s.pcs[t := MarkNext(v)])
    case MarkNext(v) => s.(next := s.next[v := true], pcs := s.pcs[t := Resting])
  }

  ghost predicate PullStep(c: PullEnv, s: PullState, s': PullState, t: nat)
    requires PullEnvOk(c) && PullSized(c, s) && t < c.threads
  {
    if s.pcs[t].Resting? then Flush(s, s', t) || exists v :: PullTake(s, s', t, v)
    else s' == PullAdvance(c, s, t)
  }

  ghost predicate PullNext(c: PullEnv, s: PullState, s': PullState)
    requires PullEnvOk(c)
  {
    PullSized(c, s) && exists t :: 0 <= t < c.threads && PullStep(c, s, s', t)
  }

  ghost predicate PullTrace(c: PullEnv, tr: seq<PullState>)
    requires PullEnvOk(c)
  {
    && |tr| > 0 && tr[0] == PullStart(c)
    && forall i | 0 <= i < |tr| - 1 :: PullNext(c, tr[i], tr[i+1])
  }

  ghost predicate PullDone(s: PullState) {
    && s.pending == {}
    && (forall t | 0 <= t < |s.pcs| :: s.pcs[t].Resting?)
    && (forall t | 0 <= t < |s.local| :: !s.local[t])
  }

  // ---- the invariant ----

  ghost predicate Busy(s: PullState, t: nat, v: nat) {
    t < |s.pcs| && !s.pcs[t].Resting? && s.pcs[t].dst == v
  }

  /** Nothing has been written about `v` in this pass. */
  ghost predicate Untouched(c: PullEnv, s: PullState, v: nat)
    requires PullEnvOk(c) && PullSized(c, s) && v < c.n
  {
    s.visited[v] == c.visited0[v] && !s.next[v]
  }

  ghost predicate WorkerOk(c: PullEnv, s: PullState, t: nat)
    requires PullEnvOk(c) && PullSized(c, s) && t < c.threads
  {
    match s.pcs[t]
    case Resting => true
    case Check(v) => Untouched(c, s, v)
    case Look(v, pos) =>
      Untouched(c, s, v) && c.visited0[v] == 0 && NothingSeen(c, v, pos)
    case Mark(v) =>
      Untouched(c, s, v) && c.visited0[v] == 0 && v in PullFringe(c) && s.local[t]
    case MarkNext(v) =>
      !s.next[v] && s.visited[v] == 1 && c.visited0[v] == 0 && v in PullFringe(c) && s.local[t]
  }

  ghost predicate NothingSeen(c: PullEnv, v: nat, pos: nat)
    requires PullEnvOk(c) && v < c.n
  {
    forall p: nat | c.inn.offsets[v] <= p < pos && p < |c.inn.edges| && c.inn.edges[p] < c.n ::
      !c.inFrontier[c.inn.edges[p]]
  }

  ghost predicate Settled(c: PullEnv, s: PullState, v: nat)
    requires PullEnvOk(c) && PullSized(c, s) && v < c.n
  {
    && (s.visited[v] == 1 <==> c.visited0[v] == 1 || v in PullFringe(c))
    && (s.next[v] <==> c.visited0[v] == 0 && v in PullFringe(c))
  }

  ghost predicate Found(c: PullEnv, v: nat)
    requires PullEnvOk(c)
  {
    v < c.n && v in PullFringe(c) && c.visited0[v] == 0
  }

  ghost predicate PullInv(c: PullEnv, s: PullState) {
    && PullEnvOk(c) && PullSized(c, s)
    && (forall v | v in s.pending :: Untouched(c, s, v))
    && (forall t | 0 <= t < c.threads :: WorkerOk(c, s, t))
    && (forall t, v | 0 <= t < c.threads && Busy(s, t, v) :: v !in s.pending)
    && (forall t, u, v | 0 <= t < c.threads && 0 <= u < c.threads && Busy(s, t, v) && Busy(s, u, v) :: t == u)
    && (forall v | 0 <= v < c.n && v !in s.pending && (forall t | 0 <= t < c.threads :: !Busy(s, t, v)) ::
          Settled(c, s, v))
    // the flags report exactly that something was found
    && (forall v | 0 <= v < c.n && s.next[v] :: s.cont || exists t :: 0 <= t < c.threads && s.local[t])
    && ((s.cont || exists t :: 0 <= t < c.threads && s.local[t]) ==> exists v :: Found(c, v))
  }

  lemma PullStartInv(c: PullEnv)
    requires PullEnvOk(c)
    ensures PullInv(c, PullStart(c))
  {
  }

  lemma PullTakeInv(c: PullEnv, s: PullState, s': PullState, t: nat, v: nat)
    requires PullInv(c, s) && t < c.threads && PullTake(s, s', t, v)
    ensures PullInv(c, s')
  {
    forall u | 0 <= u < c.threads ensures WorkerOk(c, s', u) { assert WorkerOk(c, s, u); }
    forall u, w | 0 <= u < c.threads && Busy(s', u, w)
      ensures if u == t then w == v else Busy(s, u, w) { }
    forall w | 0 <= w < c.n && w !in s'.pending && (forall u | 0 <= u < c.threads :: !Busy(s', u, w))
      ensures Settled(c, s', w)
    {
      assert !Busy(s', t, w);
      forall u | 0 <= u < c.threads ensures !Busy(s, u, w) { assert !Busy(s', u, w); }
    }
  }

  lemma FlushInv(c: PullEnv, s: PullState, s': PullState, t: nat)
    requires PullInv(c, s) && t < c.threads && Flush(s, s', t)
    ensures PullInv(c, s')
  {
    assert s.local[t];
    forall u | 0 <= u < c.threads ensures WorkerOk(c, s', u) { assert WorkerOk(c, s, u); }
    forall u, w | 0 <= u < c.threads && Busy(s', u, w) ensures Busy(s, u, w) { }
    forall w | 0 <= w < c.n && w !in s'.pending && (forall u | 0 <= u < c.threads :: !Busy(s', u, w))
      ensures Settled(c, s', w)
    {
      forall u | 0 <= u < c.threads ensures !Busy(s, u, w) { assert !Busy(s', u, w); }
    }
  }

  /** A vertex whose in-edges were all scanned without a hit is not a successor of the frontier. */
  lemma NotInFringe(c: PullEnv, v: nat)
    requires PullEnvOk(c) && v < c.n && NothingSeen(c, v, c.inn.offsets[v + 1])
    ensures v !in PullFringe(c)
  {
    if v in PullFringe(c) {
      var e :| e in c.es && e.src in FlagSet(c.inFrontier) && e.dst == v;
      assert e == Edge(e.src, v);
      var p := InEdgePosition(c, e.src, v);
      assert false;
    }
  }

  /** What one step of worker `t` does to its own vertex, and that it leaves the others alone. */
  ghost predicate OnlyOwn(c: PullEnv, s: PullState, s': PullState, t: nat, v: nat)
    requires PullEnvOk(c) && PullSized(c, s) && PullSized(c, s') && t < c.threads && v < c.n
  {
    && s'.pending == s.pending && s'.cont == s.cont
    && (forall w | 0 <= w < c.n && w != v :: s'.visited[w] == s.visited[w] && s'.next[w] == s.next[w])
    && (forall u | 0 <= u < c.threads && u != t :: s'.pcs[u] == s.pcs[u] && s'.local[u] == s.local[u])
    && (s'.pcs[t].Resting? || s'.pcs[t].dst == v)
    && WorkerOk(c, s', t)
    && (s'.pcs[t].Resting? ==> Settled(c, s', v))
    && (s.local[t] ==> s'.local[t])
    && (s'.local[t] && !s.local[t] ==> Found(c, v))
    && (s'.next[v] ==> s.next[v] || s'.local[t])
  }

  lemma CheckOwn(c: PullEnv, s: PullState, t: nat)
    requires PullInv(c, s) && t < c.threads && s.pcs[t].Check?
    ensures var s' := PullAdvance(c, s, t);
      PullSized(c, s') && OnlyOwn(c, s, s', t, s.pcs[t].dst)
  {
    assert WorkerOk(c, s, t);
  }

  lemma LookAtEnd(c: PullEnv, s: PullState, t: nat)
    requires PullInv(c, s) && t < c.threads && s.pcs[t].Look?
    requires s.pcs[t].pos == c.inn.offsets[s.pcs[t].dst + 1]
    ensures var s' := PullAdvance(c, s, t);
      PullSized(c, s') && OnlyOwn(c, s, s', t, s.pcs[t].dst)
  {
    assert WorkerOk(c, s, t);
    NotInFringe(c, s.pcs[t].dst);
  }

  lemma LookAtEdge(c: PullEnv, s: PullState, t: nat)
    requires PullInv(c, s) && t < c.threads && s.pcs[t].Look?
    requires s.pcs[t].pos < c.inn.offsets[s.pcs[t].dst + 1]
    ensures var s' := PullAdvance(c, s, t);
      PullSized(c, s') && OnlyOwn(c, s, s', t, s.pcs[t].dst)
  {
    assert WorkerOk(c, s, t);
    var v, pos := s.pcs[t].dst, s.pcs[t].pos;
    InEdge(c, v, pos);
    if c.inFrontier[c.inn.edges[pos]] {
      InFringe(c, v, pos);
    }
  }

  lemma LookOwn(c: PullEnv, s: PullState, t: nat)
    requires PullInv(c, s) && t < c.threads && s.pcs[t].Look?
    ensures var s' := PullAdvance(c, s, t);
      PullSized(c, s') && OnlyOwn(c, s, s', t, s.pcs[t].dst)
  {
    hide OnlyOwn, PullAdvance;
    if s.pcs[t].pos == c.inn.offsets[s.pcs[t].dst + 1] {
      LookAtEnd(c, s, t);
    } else {
      LookAtEdge(c, s, t);
    }
  }

  lemma InFringe(c: PullEnv, v: nat, p: nat)
    requires PullEnvOk(c) && v < c.n && c.inn.offsets[v] <= p < c.inn.offsets[v + 1]
    requires p < |c.inn.edges| && c.inn.edges[p] < c.n && c.inFrontier[c.inn.edges[p]]
    ensures v in PullFringe(c)
  {
    InEdge(c, v, p);
    var e := Edge(c.inn.edges[p], v);
    assert e in c.es && e.src in FlagSet(c.inFrontier);
  }

  lemma MarkOwn(c: PullEnv, s: PullState, t: nat)
    requires PullInv(c, s) && t < c.threads && s.pcs[t].Mark?
    ensures var s' := PullAdvance(c, s, t);
      PullSized(c, s') && OnlyOwn(c, s, s', t, s.pcs[t].dst)
  {
    assert WorkerOk(c, s, t);
  }

  lemma MarkNextOwn(c: PullEnv, s: PullState, t: nat)
    requires PullInv(c, s) && t < c.threads && s.pcs[t].MarkNext?
    ensures var s' := PullAdvance(c, s, t);
      PullSized(c, s') && OnlyOwn(c, s, s', t, s.pcs[t].dst)
  {
    assert WorkerOk(c, s, t);
  }

  lemma OnlyOwnInv(c: PullEnv, s: PullState, s': PullState, t: nat, v: nat)
    requires PullInv(c, s) && PullSized(c, s') && t < c.threads && Busy(s, t, v) && v < c.n
    requires OnlyOwn(c, s, s', t, v)
    ensures PullInv(c, s')
  {
    forall u, w | 0 <= u < c.threads && Busy(s', u, w) ensures Busy(s, u, w) { }
    forall u | 0 <= u < c.threads ensures WorkerOk(c, s', u) {
      assert WorkerOk(c, s, u);
      assert u != t ==> !Busy(s, u, v);
    }
    forall w | 0 <= w < c.n && w !in s'.pending && (forall u | 0 <= u < c.threads :: !Busy(s', u, w))
      ensures Settled(c, s', w)
    {
      assert !Busy(s', t, w);
      if w != v {
        forall u | 0 <= u < c.threads ensures !Busy(s, u, w) { assert !Busy(s', u, w); }
        assert Settled(c, s, w);
      }
    }
  }

  lemma PullAdvanceInv(c: PullEnv, s: PullState, t: nat)
    requires PullInv(c, s) && t < c.threads && !s.pcs[t].Resting?
    ensures PullInv(c, PullAdvance(c, s, t))
  {
    match s.pcs[t] {
      case Check(_) => CheckOwn(c, s, t);
      case Look(_, _) => LookOwn(c, s, t);
      case Mark(_) => MarkOwn(c, s, t);
      case MarkNext(_) => MarkNextOwn(c, s, t);
    }
    OnlyOwnInv(c, s, PullAdvance(c, s, t), t, s.pcs[t].dst);
  }

  lemma {:induction false} PullTraceInv(c: PullEnv, tr: seq<PullState>, k: nat)
    requires PullEnvOk(c) && PullTrace(c, tr) && k < |tr|
    ensures PullInv(c, tr[k])
  {
    if k == 0 {
      PullStartInv(c);
    } else {
      PullTraceInv(c, tr, k - 1);
      var s, s' := tr[k-1], tr[k];
      assert PullNext(c, s, s');
      var t :| 0 <= t < c.threads && PullStep(c, s, s', t);
      if s.pcs[t].Resting? {
        if Flush(s, s', t) {
          FlushInv(c, s, s', t);
        } else {
          var v :| PullTake(s, s', t, v);
          PullTakeInv(c, s, s', t, v);
        }
      } else {
        PullAdvanceInv(c, s, t);
      }
    }
  }

  /**
   * The pass, for every interleaving: the successors of the frontier are added to the visited
   * vertices, the next frontier is exactly the new ones, and `cont` says whether there are any.
   */
  lemma PullResult(c: PullEnv, tr: seq<PullState>)
    requires PullEnvOk(c) && PullTrace(c, tr) && PullDone(tr[|tr|-1])
    ensures var s := tr[|tr|-1];
      && Flags(s.visited, c.n) && |s.next| == c.n
      && VisitedSet(s.visited) == VisitedSet(c.visited0) + PullFringe(c)
      && FlagSet(s.next) == PullFringe(c) - VisitedSet(c.visited0)
      && (s.cont <==> FlagSet(s.next) != {})
  {
    PullTraceInv(c, tr, |tr| - 1);
    var s := tr[|tr|-1];
    forall v | 0 <= v < c.n
      ensures v in VisitedSet(s.visited) <==> v in VisitedSet(c.visited0) || v in PullFringe(c)
      ensures v in FlagSet(s.next) <==> v in PullFringe(c) && v !in VisitedSet(c.visited0)
    {
      assert forall t | 0 <= t < c.threads :: !Busy(s, t, v);
      assert Settled(c, s, v);
    }
    if s.cont {
      var v :| Found(c, v);
      assert v in FlagSet(s.next) by { assert v !in VisitedSet(c.visited0); }
    }
  }

  // ---- no schedule gets stuck, and none runs forever ----

  lemma PullNeverStuck(c: PullEnv, s: PullState)
    requires PullInv(c, s) && !PullDone(s)
    ensures exists s' :: PullNext(c, s, s')
  {
    if t :| 0 <= t < c.threads && !s.pcs[t].Resting? {
      assert PullStep(c, s, PullAdvance(c, s, t), t);
      assert PullNext(c, s, PullAdvance(c, s, t));
    } else if t :| 0 <= t < c.threads && s.local[t] {
      var s' := s.(local := s.local[t := false], cont := true);
      assert Flush(s, s', t);
      assert PullStep(c, s, s', t);
      assert PullNext(c, s, s');
    } else {
      var v :| v in s.pending;
      var s' := s.(pending := s.pending - {v}, pcs := s.pcs[0 := Check(v)]);
      assert PullTake(s, s', 0, v);
      assert PullStep(c, s, s', 0);
      assert PullNext(c, s, s');
    }
  }

  ghost function PullWork(c: PullEnv, pc: PullPc, local: bool): nat
    requires PullEnvOk(c)
  {
    (if local then 1 else 0) +
    match pc
    case Resting => 0
    case Check(v) => |c.inn.edges| + 6
    case Look(v, pos) => if pos <= |c.inn.edges| then |c.inn.edges| - pos + 5 else 0
    case Mark(_) => 2
    case MarkNext(_) => 1
  }

  ghost function PullWorks(c: PullEnv, s: PullState): (r: seq<nat>)
    requires PullEnvOk(c) && |s.pcs| == |s.local|
    ensures |r| == |s.pcs|
  {
    seq(|s.pcs|, t requires 0 <= t < |s.pcs| => PullWork(c, s.pcs[t], s.local[t]))
  }

  ghost function PullRemaining(c: PullEnv, s: PullState): nat
    requires PullEnvOk(c) && |s.pcs| == |s.local|
  {
    PullBudget(|s.pending|, |c.inn.edges|) + Sum(PullWorks(c, s))
  }

  ghost function PullBudget(vertices: nat, edges: nat): nat {
    if vertices == 0 then 0 else PullBudget(vertices - 1, edges) + edges + 7
  }

  lemma PullTakeDecreases(c: PullEnv, s: PullState, s': PullState, t: nat, v: nat)
    requires PullInv(c, s) && t < c.threads && PullTake(s, s', t, v)
    ensures PullRemaining(c, s') < PullRemaining(c, s)
  {
    SumUpdate(PullWorks(c, s), PullWorks(c, s'), t);
    assert |s.pending| == |s'.pending| + 1;
  }

  lemma PullAdvanceDecreases(c: PullEnv, s: PullState, t: nat)
    requires PullInv(c, s) && t < c.threads && !s.pcs[t].Resting?
    ensures PullRemaining(c, PullAdvance(c, s, t)) < PullRemaining(c, s)
  {
    var s' := PullAdvance(c, s, t);
    assert c.inn.offsets[s.pcs[t].dst] <= c.inn.offsets[s.pcs[t].dst + 1] <= c.inn.offsets[c.n];
    assert PullWork(c, s'.pcs[t], s'.local[t]) < PullWork(c, s.pcs[t], s.local[t]);
    SumUpdate(PullWorks(c, s), PullWorks(c, s'), t);
  }

  lemma PullStepsDecrease(c: PullEnv, s: PullState, s': PullState)
    requires PullInv(c, s) && PullNext(c, s, s') && PullSized(c, s')
    ensures PullRemaining(c, s') < PullRemaining(c, s)
  {
    var t :| 0 <= t < c.threads && PullStep(c, s, s', t);
    if !s.pcs[t].Resting? {
      PullAdvanceDecreases(c, s, t);
    } else if Flush(s, s', t) {
      SumUpdate(PullWorks(c, s), PullWorks(c, s'), t);
    } else {
      var v :| PullTake(s, s', t, v);
      PullTakeDecreases(c, s, s', t, v);
    }
  }

  /** Every run of the pass is finite, with a bound that does not depend on the schedule. */
  lemma {:induction false} PullRunsAreBounded(c: PullEnv, tr: seq<PullState>, k: nat)
    requires PullEnvOk(c) && PullTrace(c, tr) && k < |tr|
    ensures PullSized(c, tr[k]) && k + PullRemaining(c, tr[k]) <= PullBudget(c.n, |c.inn.edges|)
  {
    PullTraceInv(c, tr, k);
    if k == 0 {
      SumConstant(PullWorks(c, tr[0]), 0);
    } else {
      PullRunsAreBounded(c, tr, k - 1);
      PullTraceInv(c, tr, k - 1);
      assert PullNext(c, tr[k-1], tr[k]);
      PullStepsDecrease(c, tr[k-1], tr[k]);
    }
  }
}
