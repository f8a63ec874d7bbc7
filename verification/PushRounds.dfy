/**
 * One parallel round of the push search (`bfs_push`, and the push loop of `bfs_pushpull`) as a
 * transition system. Idle worker threads take any index of the frontier that nobody has taken, so
 * every split of the range over the workers and every order is covered; each access to shared
 * memory is one step, and the steps of different threads interleave freely.
 */
module PushRounds {
  import opened Sums
  import opened Graphs

  /**
   * What is fixed during one round. `plainTest` tells the two variants apart: `bfs_push` reads
   * `visited[dst]` before it tries the compare-and-swap, `bfs_pushpull` does not.
   */
  datatype Env = Env(n: nat, threads: nat, es: seq<Edge>, out: Csr,
                     frontier: seq<nat>, visited0: seq<nat>, plainTest: bool)

  /** Program counter of a worker; `pos..end` is the part of the current row still to be scanned. */
  datatype Pc =
    | Idle
    | Scan(pos: nat, end: nat)
    | Cas(dst: nat, pos: nat, end: nat)
    | Push(dst: nat, pos: nat, end: nat)

  datatype State = State(visited: seq<nat>, pending: set<nat>, pcs: seq<Pc>, buffers: seq<seq<nat>>)

  ghost predicate Flags(visited: seq<nat>, n: nat) {
    |visited| == n && forall v | 0 <= v < n :: visited[v] <= 1
  }

  ghost predicate EnvOk(c: Env) {
    && c.threads > 0
    && InRange(c.es, c.n) && Represents(c.out, c.n, c.es)
    && Below(c.frontier, c.n) && Flags(c.visited0, c.n)
  }

  ghost function Start(c: Env): State {
    State(c.visited0, UpTo(|c.frontier|), seq(c.threads, _ => Idle), seq(c.threads, _ => []))
  }

  // ---- steps ----

  ghost function RowStart(c: Env, i: nat): Pc
    requires EnvOk(c) && i < |c.frontier|
  {
    Scan(c.out.offsets[c.frontier[i]], c.out.offsets[c.frontier[i] + 1])
  }

  /** An idle worker takes frontier index `i` and loads the bounds of its row. */
  ghost predicate Take(c: Env, s: State, s': State, t: nat, i: nat)
    requires EnvOk(c) && t < |s.pcs| && s.pending <= UpTo(|c.frontier|)
  {
    && s.pcs[t].Idle? && i in s.pending
    && s' == s.(pending := s.pending - {i}, pcs := s.pcs[t := RowStart(c, i)])
  }

  /** The one step a busy worker can make next. */
  ghost function Advance(c: Env, s: State, t: nat): State
    requires Sized(c, s) && t < c.threads && !s.pcs[t].Idle?
  {
    match s.pcs[t]
    case Scan(pos, end) =>
      if pos == end then s.(pcs := s.pcs[t := Idle])
      else
        var dst := c.out.edges[pos];
        if c.plainTest && s.visited[dst] != 0 then s.(pcs := s.pcs[t := Scan(pos + 1, end)])
        else s.(pcs := s.pcs[t := Cas(dst, pos, end)])
    case Cas(dst, pos, end) =>
      if s.visited[dst] == 0
      then s.(visited := s.visited[dst := 1], pcs := s.pcs[t := Push(dst, pos, end)])
      else s.(pcs := s.pcs[t := Scan(pos + 1, end)])
    case Push(dst, pos, end) =>
      s.(buffers := s.buffers[t := s.buffers[t] + [dst]], pcs := s.pcs[t := Scan(pos + 1, end)])
  }

  ghost predicate Step(c: Env, s: State, s': State, t: nat)
    requires EnvOk(c) && Sized(c, s) && t < c.threads
  {
    if s.pcs[t].Idle? then exists i :: Take(c, s, s', t, i) else s' == Advance(c, s, t)
  }

  ghost predicate Next(c: Env, s: State, s': State)
    requires EnvOk(c)
  {
    Sized(c, s) && exists t :: 0 <= t < c.threads && Step(c, s, s', t)
  }

  ghost predicate Trace(c: Env, tr: seq<State>)
    requires EnvOk(c)
  {
    && |tr| > 0 && tr[0] == Start(c)
    && forall i | 0 <= i < |tr| - 1 :: Next(c, tr[i], tr[i+1])
  }

  lemma ExtendTrace(c: Env, tr: seq<State>, s': State)
    requires EnvOk(c) && Trace(c, tr) && Next(c, tr[|tr|-1], s')
    ensures Trace(c, tr + [s'])
  {
    var tr' := tr + [s'];
    forall i | 0 <= i < |tr'| - 1 ensures Next(c, tr'[i], tr'[i+1]) {
      assert i < |tr| - 1 ==> tr'[i] == tr[i] && tr'[i+1] == tr[i+1];
    }
  }

  /** The join at the end of the parallel loop: nothing left to take and every worker idle. */
  ghost predicate Done(s: State) {
    s.pending == {} && forall t | 0 <= t < |s.pcs| :: s.pcs[t].Idle?
  }

  // ---- the invariant ----

  /** All indices used by the steps are in range. */
  ghost predicate Sized(c: Env, s: State) {
    && Flags(s.visited, c.n)
    && |s.pcs| == c.threads && |s.buffers| == c.threads
    && s.pending <= UpTo(|c.frontier|)
    && (forall t | 0 <= t < c.threads :: PcOk(c, s.pcs[t]))
    && (forall t | 0 <= t < c.threads :: Below(s.buffers[t], c.n))
  }

  ghost predicate PcOk(c: Env, pc: Pc) {
    pc.Idle? ||
    (&& pc.pos <= pc.end <= |c.out.edges|
     && (forall p | pc.pos <= p < pc.end :: c.out.edges[p] < c.n)
     && (!pc.Scan? ==> pc.pos < pc.end && pc.dst == c.out.edges[pc.pos]))
  }

  /** What is left of the row leads from a frontier vertex to its successors. */
  ghost predicate Leads(c: Env, pc: Pc)
    requires PcOk(c, pc)
  {
    pc.Idle? || forall p | pc.pos <= p < pc.end :: c.out.edges[p] in Fringe(c)
  }

  /** The successors of the frontier. */
  ghost function Fringe(c: Env): set<nat> {
    Successors(c.es, Elements(c.frontier))
  }

  ghost function VisitedSet(visited: seq<nat>): set<nat> {
    set v | 0 <= v < |visited| && visited[v] != 0
  }

  /** How many copies of `d` worker `t` has claimed: those in its buffer and the one it is about to push. */
  ghost function Held(s: State, t: nat, d: nat): nat
    requires t < |s.pcs| == |s.buffers|
  {
    multiset(s.buffers[t])[d] + if s.pcs[t].Push? && s.pcs[t].dst == d then 1 else 0
  }

  ghost function AllHeld(s: State, d: nat): (r: seq<nat>)
    requires |s.pcs| == |s.buffers|
    ensures |r| == |s.pcs|
  {
    seq(|s.pcs|, t requires 0 <= t < |s.pcs| => Held(s, t, d))
  }

  /** Worker `pc` still has edge position `p` ahead of it. */
  ghost predicate Covers(pc: Pc, p: nat) {
    !pc.Idle? && pc.pos <= p < pc.end
  }

  ghost predicate Handled(c: Env, s: State, p: nat)
    requires Sized(c, s) && p < |c.out.edges| && c.out.edges[p] < c.n
  {
    s.visited[c.out.edges[p]] == 1 || exists t :: 0 <= t < c.threads && Covers(s.pcs[t], p)
  }

  /** Edge position `p` belongs to the row of frontier index `i`. */
  ghost predicate InRow(c: Env, i: nat, p: nat)
    requires EnvOk(c) && i < |c.frontier|
  {
    c.out.offsets[c.frontier[i]] <= p < c.out.offsets[c.frontier[i] + 1]
  }

  ghost predicate Inv(c: Env, s: State) {
    && EnvOk(c) && Sized(c, s)
    && (forall t | 0 <= t < c.threads :: Leads(c, s.pcs[t]))
    // only successors of the frontier become visited, and nothing is forgotten
    && (forall v | 0 <= v < c.n :: c.visited0[v] <= s.visited[v])
    && (forall v | 0 <= v < c.n && s.visited[v] != c.visited0[v] :: v in Fringe(c))
    && (forall t | 0 <= t < c.threads && s.pcs[t].Push? :: s.visited[s.pcs[t].dst] == 1)
    // every newly visited vertex is claimed exactly once, by one worker
    && (forall d | 0 <= d < c.n :: Sum(AllHeld(s, d)) + c.visited0[d] == s.visited[d])
    // no edge of a taken row is lost
    && (forall i, p: nat | 0 <= i < |c.frontier| && i !in s.pending && InRow(c, i, p) ::
          c.out.edges[p] < c.n && Handled(c, s, p))
  }

  lemma RowOk(c: Env, i: nat)
    requires EnvOk(c) && i < |c.frontier|
    ensures PcOk(c, RowStart(c, i)) && Leads(c, RowStart(c, i))
    ensures forall p: nat | InRow(c, i, p) :: p < |c.out.edges| && c.out.edges[p] < c.n && c.out.edges[p] in Fringe(c)
  {
    var u := c.frontier[i];
    var lo, hi := c.out.offsets[u], c.out.offsets[u + 1];
    assert hi <= c.out.offsets[c.n];
    forall p | lo <= p < hi
      ensures c.out.edges[p] < c.n && c.out.edges[p] in Fringe(c)
    {
      var dst := c.out.edges[p];
      assert Segment(c.out, c.n, u)[p - lo] == dst;
      SegmentCount(c.out, c.n, c.es, u, dst);
      var e := Edge(u, dst);
      assert e in c.es && e.src in Elements(c.frontier);
    }
  }

  lemma StartInv(c: Env)
    requires EnvOk(c)
    ensures Inv(c, Start(c))
  {
    forall d | 0 <= d < c.n ensures Sum(AllHeld(Start(c), d)) == 0 {
      SumConstant(AllHeld(Start(c), d), 0);
    }
  }

  lemma TakeInv(c: Env, s: State, s': State, t: nat, i: nat)
    requires Inv(c, s) && t < c.threads && Take(c, s, s', t, i)
    ensures Inv(c, s')
  {
    RowOk(c, i);
    forall d | 0 <= d < c.n ensures Sum(AllHeld(s', d)) == Sum(AllHeld(s, d)) {
      assert AllHeld(s', d) == AllHeld(s, d);
    }
    forall j, p: nat | 0 <= j < |c.frontier| && j !in s'.pending && InRow(c, j, p)
      ensures c.out.edges[p] < c.n && Handled(c, s', p)
    {
      if j == i {
        assert Covers(s'.pcs[t], p);
      } else if s.visited[c.out.edges[p]] != 1 {
        var u :| 0 <= u < c.threads && Covers(s.pcs[u], p);
        assert Covers(s'.pcs[u], p);
      }
    }
  }

  lemma AdvancePc(c: Env, s: State, t: nat)
    requires Sized(c, s) && t < c.threads && !s.pcs[t].Idle? && Leads(c, s.pcs[t])
    ensures var pc := Advance(c, s, t).pcs[t]; PcOk(c, pc) && Leads(c, pc)
    ensures !s.pcs[t].Scan? ==> s.pcs[t].dst < c.n && s.pcs[t].dst in Fringe(c)
  {
    assert PcOk(c, s.pcs[t]);
  }

  lemma AdvanceSized(c: Env, s: State, t: nat)
    requires Inv(c, s) && t < c.threads && !s.pcs[t].Idle?
    ensures var s' := Advance(c, s, t);
      && Sized(c, s') && (forall u | 0 <= u < c.threads :: Leads(c, s'.pcs[u]))
      && (forall v | 0 <= v < c.n :: s.visited[v] <= s'.visited[v])
      && (forall v | 0 <= v < c.n && s'.visited[v] != c.visited0[v] :: v in Fringe(c))
      && (forall u | 0 <= u < c.threads && s'.pcs[u].Push? :: s'.visited[s'.pcs[u].dst] == 1)
  {
    AdvancePc(c, s, t);
    hide Leads, Fringe;
  }

  lemma AdvanceHeld(c: Env, s: State, t: nat, d: nat)
    requires Inv(c, s) && t < c.threads && !s.pcs[t].Idle? && d < c.n
    requires Sized(c, Advance(c, s, t))
    ensures Sum(AllHeld(Advance(c, s, t), d)) + c.visited0[d] == Advance(c, s, t).visited[d]
  {
    SumUpdate(AllHeld(s, d), AllHeld(Advance(c, s, t), d), t);
  }

  lemma AdvanceHandled(c: Env, s: State, t: nat, p: nat)
    requires Inv(c, s) && t < c.threads && !s.pcs[t].Idle? && p < |c.out.edges| && c.out.edges[p] < c.n
    requires Sized(c, Advance(c, s, t))
    requires Handled(c, s, p)
    ensures Handled(c, Advance(c, s, t), p)
  {
    var s' := Advance(c, s, t);
    assert PcOk(c, s.pcs[t]);
    if s'.visited[c.out.edges[p]] != 1 {
      var u :| 0 <= u < c.threads && Covers(s.pcs[u], p);
      assert Covers(s'.pcs[u], p);
    }
  }

  lemma AdvanceInv(c: Env, s: State, t: nat)
    requires Inv(c, s) && t < c.threads && !s.pcs[t].Idle?
    ensures Inv(c, Advance(c, s, t))
  {
    AdvanceSized(c, s, t);
    var s' := Advance(c, s, t);
    forall d | 0 <= d < c.n ensures Sum(AllHeld(s', d)) + c.visited0[d] == s'.visited[d] {
      AdvanceHeld(c, s, t, d);
    }
    forall j, p: nat | 0 <= j < |c.frontier| && j !in s'.pending && InRow(c, j, p)
      ensures c.out.edges[p] < c.n && Handled(c, s', p)
    {
      AdvanceHandled(c, s, t, p);
    }
  }

  lemma {:induction false} TraceInv(c: Env, tr: seq<State>, k: nat)
    requires EnvOk(c) && Trace(c, tr) && k < |tr|
    ensures Inv(c, tr[k])
  {
    if k == 0 {
      StartInv(c);
    } else {
      TraceInv(c, tr, k - 1);
      var s, s' := tr[k-1], tr[k];
      assert Next(c, s, s');
      var t :| 0 <= t < c.threads && Step(c, s, s', t);
      if s.pcs[t].Idle? {
        var i :| Take(c, s, s', t, i);
        TakeInv(c, s, s', t, i);
      } else {
        AdvanceInv(c, s, t);
      }
    }
  }

  // ---- results that hold in every run ----

  /**
   * At every reachable state the buffers together list newly visited vertices only, each at most
   * once. So no buffer, and not even their concatenation, exceeds its capacity of `n` slots.
   */
  lemma BuffersFit(c: Env, s: State)
    requires Inv(c, s)
    ensures Distinct(Concat(s.buffers)) && |Concat(s.buffers)| <= c.n
    ensures forall t | 0 <= t < c.threads :: |s.buffers[t]| + (if s.pcs[t].Push? then 1 else 0) <= c.n
  {
    ConcatBelow(s.buffers, c.n);
    forall d: nat ensures multiset(Concat(s.buffers))[d] <= 1 {
      if d < c.n {
        ConcatCount(s.buffers, d);
        SumMonotone(Copies(s.buffers, d), AllHeld(s, d));
        assert Sum(AllHeld(s, d)) + c.visited0[d] == s.visited[d];
      } else {
        BelowCount(Concat(s.buffers), c.n, d);
      }
    }
    DistinctIffMultiset(Concat(s.buffers));
    DistinctBounded(Concat(s.buffers), c.n);
    forall t | 0 <= t < c.threads
      ensures |s.buffers[t]| + (if s.pcs[t].Push? then 1 else 0) <= c.n
    {
      BufferFits(c, s, t);
    }
  }

  lemma BufferFits(c: Env, s: State, t: nat)
    requires Inv(c, s) && t < c.threads
    ensures |s.buffers[t]| + (if s.pcs[t].Push? then 1 else 0) <= c.n
  {
    assert PcOk(c, s.pcs[t]);
    var b: seq<nat> := if s.pcs[t].Push? then s.buffers[t] + [s.pcs[t].dst] else s.buffers[t];
    forall d: nat ensures multiset(b)[d] <= 1 {
      if d < c.n {
        assert multiset(b)[d] == AllHeld(s, d)[t];
        SumTerm(AllHeld(s, d), t);
        assert Sum(AllHeld(s, d)) + c.visited0[d] == s.visited[d];
      } else {
        BelowCount(b, c.n, d);
      }
    }
    DistinctIffMultiset(b);
    DistinctBounded(b, c.n);
  }

  lemma FringePosition(c: Env, d: nat) returns (i: nat, p: nat)
    requires EnvOk(c) && d in Fringe(c)
    ensures i < |c.frontier| && InRow(c, i, p) && p < |c.out.edges| && c.out.edges[p] == d < c.n
  {
    var e :| e in c.es && e.src in Elements(c.frontier) && e.dst == d;
    i :| 0 <= i < |c.frontier| && c.frontier[i] == e.src;
    SegmentCount(c.out, c.n, c.es, e.src, d);
    assert Edge(e.src, d) == e;
    var q :| 0 <= q < |Segment(c.out, c.n, e.src)| && Segment(c.out, c.n, e.src)[q] == d;
    p := c.out.offsets[e.src] + q;
    assert c.out.offsets[e.src + 1] <= c.out.offsets[c.n];
  }

  lemma FringeVisited(c: Env, s: State, d: nat)
    requires Inv(c, s) && Done(s) && d in Fringe(c)
    ensures d < c.n && s.visited[d] == 1
  {
    var i, p := FringePosition(c, d);
    assert Handled(c, s, p);
  }

  lemma NewVerticesBuffered(c: Env, s: State, d: nat)
    requires Inv(c, s) && Done(s)
    ensures d < c.n ==> multiset(Concat(s.buffers))[d] + c.visited0[d] == s.visited[d]
    ensures d >= c.n ==> multiset(Concat(s.buffers))[d] == 0
  {
    ConcatCount(s.buffers, d);
    if d < c.n {
      assert AllHeld(s, d) == Copies(s.buffers, d);
    } else {
      ConcatBelow(s.buffers, c.n);
      BelowCount(Concat(s.buffers), c.n, d);
    }
  }

  lemma DoneResult(c: Env, s: State)
    requires Inv(c, s) && Done(s)
    ensures Below(Concat(s.buffers), c.n)
    ensures VisitedSet(s.visited) == VisitedSet(c.visited0) + Fringe(c)
    ensures multiset(Concat(s.buffers)) == multiset(Fringe(c) - VisitedSet(c.visited0))
  {
    forall d | d in Fringe(c) ensures d < c.n && s.visited[d] == 1 {
      FringeVisited(c, s, d);
    }
    ConcatBelow(s.buffers, c.n);
    var found: set<nat> := Fringe(c) - VisitedSet(c.visited0);
    forall d: nat
      ensures multiset(Concat(s.buffers))[d] == multiset(found)[d]
    {
      NewVerticesBuffered(c, s, d);
    }
  }

  /**
   * The round, for every interleaving: afterwards exactly the successors of the frontier have been
   * added to the visited vertices, and the buffers together list exactly the new ones, each once.
   */
  lemma RoundResult(c: Env, tr: seq<State>)
    requires EnvOk(c) && Trace(c, tr) && Done(tr[|tr|-1])
    ensures var s := tr[|tr|-1];
      && Flags(s.visited, c.n) && Below(Concat(s.buffers), c.n)
      && VisitedSet(s.visited) == VisitedSet(c.visited0) + Fringe(c)
      && multiset(Concat(s.buffers)) == multiset(Fringe(c) - VisitedSet(c.visited0))
  {
    TraceInv(c, tr, |tr| - 1);
    DoneResult(c, tr[|tr|-1]);
  }

  // ---- no schedule gets stuck, and none runs forever ----

  lemma NeverStuck(c: Env, s: State)
    requires Inv(c, s) && !Done(s)
    ensures exists s' :: Next(c, s, s')
  {
    if t :| 0 <= t < c.threads && !s.pcs[t].Idle? {
      assert Step(c, s, Advance(c, s, t), t);
      assert Next(c, s, Advance(c, s, t));
    } else {
      var i :| i in s.pending;
      var s' := s.(pending := s.pending - {i}, pcs := s.pcs[0 := RowStart(c, i)]);
      assert Take(c, s, s', 0, i);
      assert Step(c, s, s', 0);
      assert Next(c, s, s');
    }
  }

  ghost function Work(pc: Pc): nat {
    match pc
    case Idle => 0
    case Scan(pos, end) => if pos <= end then 3 * (end - pos) + 1 else 0
    case Cas(_, pos, end) => if pos < end then 3 * (end - pos) else 0
    case Push(_, pos, end) => if pos < end then 3 * (end - pos) - 1 else 0
  }

  ghost function Works(s: State): (r: seq<nat>)
    ensures |r| == |s.pcs|
  {
    seq(|s.pcs|, t requires 0 <= t < |s.pcs| => Work(s.pcs[t]))
  }

  /** Enough steps for `rows` rows over a graph with `edges` edges. */
  ghost function Budget(rows: nat, edges: nat): nat {
    if rows == 0 then 0 else Budget(rows - 1, edges) + 3 * edges + 2
  }

  /** An upper bound for the number of steps that are still to come. */
  ghost function Remaining(c: Env, s: State): nat {
    Budget(|s.pending|, |c.out.edges|) + Sum(Works(s))
  }

  lemma TakeWork(c: Env, s: State, s': State, t: nat, i: nat)
    requires Inv(c, s) && t < c.threads && Take(c, s, s', t, i)
    ensures Sum(Works(s')) <= Sum(Works(s)) + 3 * |c.out.edges| + 1
  {
    assert PcOk(c, RowStart(c, i)) by { RowOk(c, i); }
    SumUpdate(Works(s), Works(s'), t);
  }

  lemma TakeDecreases(c: Env, s: State, s': State, t: nat, i: nat)
    requires Inv(c, s) && t < c.threads && Take(c, s, s', t, i)
    ensures Remaining(c, s') < Remaining(c, s)
  {
    TakeWork(c, s, s', t, i);
    assert |s.pending| == |s'.pending| + 1;
  }

  lemma AdvanceDecreases(c: Env, s: State, t: nat)
    requires Inv(c, s) && t < c.threads && !s.pcs[t].Idle?
    ensures Remaining(c, Advance(c, s, t)) < Remaining(c, s)
  {
    assert PcOk(c, s.pcs[t]);
    SumUpdate(Works(s), Works(Advance(c, s, t)), t);
  }

  lemma StepsDecrease(c: Env, s: State, s': State)
    requires Inv(c, s) && Next(c, s, s')
    ensures Remaining(c, s') < Remaining(c, s)
  {
    var t :| 0 <= t < c.threads && Step(c, s, s', t);
    if s.pcs[t].Idle? {
      var i :| Take(c, s, s', t, i);
      TakeDecreases(c, s, s', t, i);
    } else {
      AdvanceDecreases(c, s, t);
    }
  }

  /** Every run of the round is finite, with a bound that does not depend on the schedule. */
  lemma {:induction false} RunsAreBounded(c: Env, tr: seq<State>, k: nat)
    requires EnvOk(c) && Trace(c, tr) && k < |tr|
    ensures k + Remaining(c, tr[k]) <= Budget(|c.frontier|, |c.out.edges|)
  {
    if k == 0 {
      SumConstant(Works(tr[0]), 0);
    } else {
      RunsAreBounded(c, tr, k - 1);
      TraceInv(c, tr, k - 1);
      assert Next(c, tr[k-1], tr[k]);
      StepsDecrease(c, tr[k-1], tr[k]);
    }
  }
}
