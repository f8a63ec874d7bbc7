/**
 * `pr_push`: in every iteration each vertex adds half of its value to all its successors with
 * `atomicAdd`, then all sums are halved and reset. Both parallel loops are transition systems; the
 * read and the compare-and-swap of an addition are separate steps.
 */
module PageRank {
  import opened Sums
  import opened Words
  import opened Graphs

  // ---- the reference: gather over incoming edges ----

  /** What the edges into `v` deliver, with multiplicity. */
  function Gather(es: seq<Edge>, prev: seq<nat>, v: nat): nat {
    if |es| == 0 then 0
    else
      var m := |es| - 1;
      Gather(es[..m], prev, v) +
      if es[m].dst == v && es[m].src < |prev| then prev[es[m].src] / 2 else 0
  }

  /** One iteration, on the values of `prev`. */
  function Iterate(es: seq<Edge>, n: nat, prev: seq<nat>): (r: seq<nat>)
    ensures |r| == n
  {
    seq(n, v requires 0 <= v < n => Wrap(Gather(es, prev, v)) / 2)
  }

  /** The values after `k` iterations, from the values `first`. */
  function RanksFrom(es: seq<Edge>, n: nat, first: seq<nat>, k: nat): (r: seq<nat>)
    requires |first| == n
    ensures |r| == n
  {
    if k == 0 then first else Iterate(es, n, RanksFrom(es, n, first, k - 1))
  }

  /** ... and from the initial value 4 everywhere. */
  function Ranks(es: seq<Edge>, n: nat, k: nat): (r: seq<nat>)
    ensures |r| == n
  {
    RanksFrom(es, n, seq(n, _ => 4), k)
  }

  /**
   * The gathered sum, said without recursion: one entry per edge into `v`, and the entry of an edge from `u`
   * is half of the value of `u`, rounded down.
   */
  lemma {:induction false} GatherAddsHalves(es: seq<Edge>, prev: seq<nat>, halves: seq<nat>, v: nat)
    requires InRange(es, |prev|) && |halves| == |prev|
    requires forall u | 0 <= u < |prev| :: 2 * halves[u] <= prev[u] <= 2 * halves[u] + 1
    ensures Below(Dsts(Reverse(es), v), |prev|)
    ensures Gather(es, prev, v) == Sum(Pick(halves, Dsts(Reverse(es), v)))
  {
    if |es| > 0 {
      var m := |es| - 1;
      GatherAddsHalves(es[..m], prev, halves, v);
      var ds := Dsts(Reverse(es[..m]), v);
      assert Reverse(es)[..m] == Reverse(es[..m]);
      assert Reverse(es)[m] == Edge(es[m].dst, es[m].src);
      assert halves[es[m].src] == prev[es[m].src] / 2;
      if es[m].dst == v {
        assert Dsts(Reverse(es), v) == ds + [es[m].src];
        assert Pick(halves, ds + [es[m].src])[..|ds|] == Pick(halves, ds);
      } else {
        assert Dsts(Reverse(es), v) == ds;
      }
    }
  }

  /** What the iterations are: the first value is kept, and each iteration halves the gathered sum modulo 2^32. */
  lemma RanksLaw(es: seq<Edge>, n: nat, first: seq<nat>, k: nat, v: nat)
    requires |first| == n && v < n
    ensures RanksFrom(es, n, first, 0) == first
    ensures var sum, next := Gather(es, RanksFrom(es, n, first, k), v) % 0x1_0000_0000, RanksFrom(es, n, first, k + 1)[v];
      2 * next <= sum <= 2 * next + 1
    ensures Ranks(es, n, k) == RanksFrom(es, n, seq(n, _ => 4), k)
  {
    WrapIsCongruent(Gather(es, RanksFrom(es, n, first, k), v), 0);
  }

  // ---- the scatter loop ----

  datatype Env = Env(n: nat, es: seq<Edge>, out: Csr, prev: seq<nat>, rank0: seq<nat>)

  /** One task per vertex: where it stands in its row, and the value it has read before a swap. */
  datatype Pc =
    | Todo
    | At(pos: nat)
    | Swapping(pos: nat, oldVal: nat)
    | Finished

  datatype State = State(rank: seq<nat>, pcs: seq<Pc>)

  ghost predicate EnvOk(c: Env) {
    && InRange(c.es, c.n) && Represents(c.out, c.n, c.es)
    && |c.prev| == |c.rank0| == c.n
    && (forall v | 0 <= v < c.n :: c.prev[v] < WORD && c.rank0[v] < WORD)
  }

  ghost predicate PcOk(c: Env, i: nat, pc: Pc)
    requires EnvOk(c) && i < c.n
  {
    match pc
    case At(pos) => c.out.offsets[i] <= pos <= c.out.offsets[i + 1]
    case Swapping(pos, _) => c.out.offsets[i] <= pos < c.out.offsets[i + 1]
    case _ => true
  }

  ghost predicate Sized(c: Env, s: State)
    requires EnvOk(c)
  {
    |s.rank| == |s.pcs| == c.n && forall i | 0 <= i < c.n :: PcOk(c, i, s.pcs[i])
  }

  ghost function Delta(c: Env, i: nat): nat
    requires EnvOk(c) && i < c.n
  {
    c.prev[i] / 2
  }

  lemma EdgeInRange(c: Env, i: nat, pos: nat)
    requires EnvOk(c) && i < c.n && c.out.offsets[i] <= pos < c.out.offsets[i + 1]
    ensures pos < |c.out.edges| && c.out.edges[pos] < c.n
  {
    assert c.out.offsets[i + 1] <= c.out.offsets[c.n];
    var dst := c.out.edges[pos];
    assert Segment(c.out, c.n, i)[pos - c.out.offsets[i]] == dst;
    SegmentCount(c.out, c.n, c.es, i, dst);
  }

  ghost function Advance(c: Env, s: State, i: nat): State
    requires EnvOk(c) && Sized(c, s) && i < c.n && !s.pcs[i].Finished?
  {
    assert PcOk(c, i, s.pcs[i]);
    match s.pcs[i]
    case Todo => s.(pcs := s.pcs[i := At(c.out.offsets[i])])
    case At(pos) =>
      if pos == c.out.offsets[i + 1] then s.(pcs := s.pcs[i := Finished])
      else
        EdgeInRange(c, i, pos);
        s.(pcs := s.pcs[i := Swapping(pos, s.rank[c.out.edges[pos]])])
    case Swapping(pos, oldVal) =>
      EdgeInRange(c, i, pos);
      var dst := c.out.edges[pos];
      if s.rank[dst] == oldVal
      then State(s.rank[dst := Wrap(oldVal + Delta(c, i))], s.pcs[i := At(pos + 1)])
      else s.(pcs := s.pcs[i := At(pos)])
  }

  ghost function Start(c: Env): State {
    State(c.rank0, seq(c.n, _ => Todo))
  }

  ghost predicate Next(c: Env, s: State, s': State)
    requires EnvOk(c)
  {
    Sized(c, s) && exists i :: 0 <= i < c.n && !s.pcs[i].Finished? && s' == Advance(c, s, i)
  }

  ghost predicate Trace(c: Env, tr: seq<State>)
    requires EnvOk(c)
  {
    && |tr| > 0 && tr[0] == Start(c)
    && forall k | 0 <= k < |tr| - 1 :: Next(c, tr[k], tr[k+1])
  }

  ghost predicate Done(s: State) {
    forall i | 0 <= i < |s.pcs| :: s.pcs[i].Finished?
  }

  /** What a row prefix `ds` delivers to `v` when every edge carries `delta`. */
  ghost function Scattered(delta: nat, ds: seq<nat>, v: nat): nat {
    if |ds| == 0 then 0
    else Scattered(delta, ds[..|ds|-1], v) + if ds[|ds|-1] == v then delta else 0
  }

  /** The part of its row that task `i` has completed. */
  ghost function Completed(c: Env, s: State, i: nat): seq<nat>
    requires EnvOk(c) && Sized(c, s) && i < c.n
  {
    assert PcOk(c, i, s.pcs[i]);
    assert c.out.offsets[i] <= c.out.offsets[i + 1] <= c.out.offsets[c.n];
    match s.pcs[i]
    case Todo => []
    case At(pos) => c.out.edges[c.out.offsets[i]..pos]
    case Swapping(pos, _) => c.out.edges[c.out.offsets[i]..pos]
    case Finished => Segment(c.out, c.n, i)
  }

  ghost function Contributions(c: Env, s: State, v: nat): (r: seq<nat>)
    requires EnvOk(c) && Sized(c, s)
    ensures |r| == c.n
  {
    seq(c.n, i requires 0 <= i < c.n => Scattered(Delta(c, i), Completed(c, s, i), v))
  }

  /** The sum at `v` is its initial value plus what has been delivered so far, modulo 2^32. */
  ghost predicate RankOk(c: Env, s: State, v: nat)
    requires EnvOk(c) && Sized(c, s) && v < c.n
  {
    s.rank[v] == Wrap(c.rank0[v] + Sum(Contributions(c, s, v)))
  }

  ghost predicate Inv(c: Env, s: State) {
    EnvOk(c) && Sized(c, s) && forall v | 0 <= v < c.n :: RankOk(c, s, v)
  }

  lemma StartInv(c: Env)
    requires EnvOk(c)
    ensures Inv(c, Start(c))
  {
    forall v | 0 <= v < c.n ensures Sum(Contributions(c, Start(c), v)) == 0 {
      SumConstant(Contributions(c, Start(c), v), 0);
    }
  }

  lemma ScatteredAppend(delta: nat, ds: seq<nat>, d: nat, v: nat)
    ensures Scattered(delta, ds + [d], v) == Scattered(delta, ds, v) + if d == v then delta else 0
  {
    assert (ds + [d])[..|ds|] == ds;
  }

  /** What the next step of task `i` delivers to `v`: its value if a swap succeeds there. */
  ghost function Delivers(c: Env, s: State, i: nat, v: nat): nat
    requires EnvOk(c) && Sized(c, s) && i < c.n
  {
    assert PcOk(c, i, s.pcs[i]);
    if !s.pcs[i].Swapping? then 0
    else
      EdgeInRange(c, i, s.pcs[i].pos);
      if c.out.edges[s.pcs[i].pos] == v && s.rank[v] == s.pcs[i].oldVal then Delta(c, i) else 0
  }

  lemma CompletedStep(c: Env, s: State, i: nat, v: nat)
    requires EnvOk(c) && Sized(c, s) && i < c.n && !s.pcs[i].Finished? && v < c.n
    requires Sized(c, Advance(c, s, i))
    ensures Scattered(Delta(c, i), Completed(c, Advance(c, s, i), i), v)
         == Scattered(Delta(c, i), Completed(c, s, i), v) + Delivers(c, s, i, v)
  {
    var s' := Advance(c, s, i);
    assert PcOk(c, i, s.pcs[i]);
    if s.pcs[i].Swapping? {
      var pos := s.pcs[i].pos;
      EdgeInRange(c, i, pos);
      if s.rank[c.out.edges[pos]] == s.pcs[i].oldVal {
        assert Completed(c, s', i) == Completed(c, s, i) + [c.out.edges[pos]];
        ScatteredAppend(Delta(c, i), Completed(c, s, i), c.out.edges[pos], v);
      }
    } else {
      assert Completed(c, s', i) == Completed(c, s, i);
    }
  }

  lemma AdvanceSized(c: Env, s: State, i: nat)
    requires EnvOk(c) && Sized(c, s) && i < c.n && !s.pcs[i].Finished?
    ensures Sized(c, Advance(c, s, i))
  {
    var s' := Advance(c, s, i);
    assert c.out.offsets[i] <= c.out.offsets[i + 1];
    assert PcOk(c, i, s.pcs[i]);
    if s.pcs[i].Swapping? {
      EdgeInRange(c, i, s.pcs[i].pos);
    }
    assert |s'.rank| == |s'.pcs| == c.n;
    forall j | 0 <= j < c.n ensures PcOk(c, j, s'.pcs[j]) { assert PcOk(c, j, s.pcs[j]); }
  }

  lemma AdvanceDelivers(c: Env, s: State, i: nat, v: nat)
    requires EnvOk(c) && Sized(c, s) && i < c.n && !s.pcs[i].Finished? && v < c.n
    requires Sized(c, Advance(c, s, i)) && s.rank[v] < WORD
    ensures Advance(c, s, i).rank[v] == Wrap(s.rank[v] + Delivers(c, s, i, v))
  {
    assert PcOk(c, i, s.pcs[i]);
    if s.pcs[i].Swapping? {
      EdgeInRange(c, i, s.pcs[i].pos);
    }
  }

  lemma AdvanceContributions(c: Env, s: State, i: nat, v: nat)
    requires EnvOk(c) && Sized(c, s) && i < c.n && !s.pcs[i].Finished? && v < c.n
    requires Sized(c, Advance(c, s, i))
    ensures Sum(Contributions(c, Advance(c, s, i), v)) == Sum(Contributions(c, s, v)) + Delivers(c, s, i, v)
  {
    var s' := Advance(c, s, i);
    CompletedStep(c, s, i, v);
    hide Scattered, Represents;
    assert forall j | 0 <= j < c.n && j != i :: s'.pcs[j] == s.pcs[j];
    SumUpdate(Contributions(c, s, v), Contributions(c, s', v), i);
  }

  lemma AdvanceRank(c: Env, s: State, i: nat, v: nat)
    requires EnvOk(c) && Sized(c, s) && i < c.n && !s.pcs[i].Finished? && v < c.n
    requires Sized(c, Advance(c, s, i)) && RankOk(c, s, v)
    ensures RankOk(c, Advance(c, s, i), v)
  {
    hide Advance, Contributions, Delivers, Wrap, Sum, Sized, Represents;
    AdvanceContributions(c, s, i, v);
    AdvanceDelivers(c, s, i, v);
    AddWrapped(c.rank0[v] + Sum(Contributions(c, s, v)), Delivers(c, s, i, v));
  }

  lemma AdvanceInv(c: Env, s: State, i: nat)
    requires Inv(c, s) && i < c.n && !s.pcs[i].Finished?
    ensures Inv(c, Advance(c, s, i))
  {
    AdvanceSized(c, s, i);
    forall v | 0 <= v < c.n ensures RankOk(c, Advance(c, s, i), v) {
      AdvanceRank(c, s, i, v);
    }
  }

  lemma {:induction false} TraceInv(c: Env, tr: seq<State>, k: nat)
    requires EnvOk(c) && Trace(c, tr) && k < |tr|
    ensures Inv(c, tr[k])
  {
    if k == 0 {
      StartInv(c);
    } else {
      TraceInv(c, tr, k - 1);
      assert Next(c, tr[k-1], tr[k]);
      var i :| 0 <= i < c.n && !tr[k-1].pcs[i].Finished? && tr[k] == Advance(c, tr[k-1], i);
      AdvanceInv(c, tr[k-1], i);
    }
  }

  // ---- scatter over out-rows equals gather over incoming edges ----

  /** How much a row delivers to `v` depends only on how often it lists `v`. */
  lemma {:induction false} ScatteredCount(delta: nat, ds: seq<nat>, v: nat)
    ensures Scattered(delta, ds, v) == Times(multiset(ds)[v], delta)
  {
    if |ds| > 0 {
      var m := |ds| - 1;
      ScatteredCount(delta, ds[..m], v);
      assert ds == ds[..m] + [ds[m]];
      CountAppend(ds[..m], ds[m], v);
    }
  }

  ghost function Times(k: nat, x: nat): nat {
    if k == 0 then 0 else Times(k - 1, x) + x
  }

  ghost function RowSums(es: seq<Edge>, prev: seq<nat>, v: nat): (r: seq<nat>)
    ensures |r| == |prev|
  {
    seq(|prev|, i requires 0 <= i < |prev| => Scattered(prev[i] / 2, Dsts(es, i), v))
  }

  lemma RowSumsStep(es: seq<Edge>, prev: seq<nat>, v: nat, i: nat)
    requires |es| > 0 && i < |prev|
    ensures RowSums(es, prev, v)[i] == RowSums(es[..|es|-1], prev, v)[i] +
      if es[|es|-1].src == i && es[|es|-1].dst == v then prev[i] / 2 else 0
  {
    var m := |es| - 1;
    if es[m].src == i {
      ScatteredAppend(prev[i] / 2, Dsts(es[..m], i), es[m].dst, v);
    } else {
      assert Dsts(es, i) == Dsts(es[..m], i);
    }
  }

  lemma {:induction false} ScatterIsGather(es: seq<Edge>, prev: seq<nat>, v: nat)
    requires forall j | 0 <= j < |es| :: es[j].src < |prev|
    ensures Sum(RowSums(es, prev, v)) == Gather(es, prev, v)
  {
    if |es| == 0 {
      SumConstant(RowSums(es, prev, v), 0);
    } else {
      var m := |es| - 1;
      ScatterIsGather(es[..m], prev, v);
      forall i | 0 <= i < |prev|
        ensures RowSums(es, prev, v)[i] == RowSums(es[..m], prev, v)[i] +
          if es[m].src == i && es[m].dst == v then prev[i] / 2 else 0
      {
        RowSumsStep(es, prev, v, i);
      }
      SumUpdate(RowSums(es[..m], prev, v), RowSums(es, prev, v), es[m].src);
    }
  }

  lemma FullRow(c: Env, i: nat, v: nat)
    requires EnvOk(c) && i < c.n
    ensures Scattered(Delta(c, i), Segment(c.out, c.n, i), v) == Scattered(Delta(c, i), Dsts(c.es, i), v)
  {
    ScatteredCount(Delta(c, i), Segment(c.out, c.n, i), v);
    ScatteredCount(Delta(c, i), Dsts(c.es, i), v);
  }

  lemma DoneContributions(c: Env, s: State, v: nat)
    requires EnvOk(c) && Sized(c, s) && Done(s) && v < c.n
    ensures Contributions(c, s, v) == RowSums(c.es, c.prev, v)
  {
    forall i | 0 <= i < c.n ensures Contributions(c, s, v)[i] == RowSums(c.es, c.prev, v)[i] {
      FullRow(c, i, v);
    }
  }

  lemma DoneResult(c: Env, s: State, v: nat)
    requires Inv(c, s) && Done(s) && v < c.n
    ensures s.rank[v] == Wrap(c.rank0[v] + Gather(c.es, c.prev, v))
  {
    hide Contributions, RowSums, Gather, Represents, Wrap, Sum;
    assert RankOk(c, s, v);
    DoneContributions(c, s, v);
    ScatterIsGather(c.es, c.prev, v);
  }

  /** The scatter loop, for every interleaving of reads and swaps. */
  lemma ScatterResult(c: Env, tr: seq<State>)
    requires EnvOk(c) && Trace(c, tr) && Done(tr[|tr|-1])
    ensures |tr[|tr|-1].rank| == c.n
    ensures forall v | 0 <= v < c.n ::
      tr[|tr|-1].rank[v] == (c.rank0[v] + Gather(c.es, c.prev, v)) % 0x1_0000_0000
  {
    hide Gather, Represents, Wrap, RankOk;
    TraceInv(c, tr, |tr| - 1);
    forall v | 0 <= v < c.n
      ensures tr[|tr|-1].rank[v] == (c.rank0[v] + Gather(c.es, c.prev, v)) % 0x1_0000_0000
    {
      DoneResult(c, tr[|tr|-1], v);
      WrapIsCongruent(c.rank0[v] + Gather(c.es, c.prev, v), 0);
    }
  }

  // ---- no schedule of the scatter loop gets stuck, and none runs for ever ----

  lemma ScatterNeverStuck(c: Env, s: State)
    requires EnvOk(c) && Sized(c, s) && !Done(s)
    ensures exists s' :: Next(c, s, s')
  {
    hide Represents;
    var i :| 0 <= i < |s.pcs| && !s.pcs[i].Finished?;
    assert Next(c, s, Advance(c, s, i));
  }

  /** Edges along which task `i` still has to deliver. */
  ghost function Left(c: Env, s: State, i: nat): nat
    requires EnvOk(c) && Sized(c, s) && i < c.n
  {
    assert PcOk(c, i, s.pcs[i]);
    assert c.out.offsets[i] <= c.out.offsets[i + 1];
    match s.pcs[i]
    case Todo => c.out.offsets[i + 1] - c.out.offsets[i]
    case At(pos) => c.out.offsets[i + 1] - pos
    case Swapping(pos, _) => c.out.offsets[i + 1] - pos
    case Finished => 0
  }

  ghost function Lefts(c: Env, s: State): (r: seq<nat>)
    requires EnvOk(c) && Sized(c, s)
    ensures |r| == c.n
  {
    seq(c.n, i requires 0 <= i < c.n => Left(c, s, i))
  }

  /** How far task `i` is from its next delivery; an outdated value means another round of the retry loop. */
  ghost function Stage(c: Env, s: State, i: nat): nat
    requires EnvOk(c) && Sized(c, s) && i < c.n
  {
    assert PcOk(c, i, s.pcs[i]);
    match s.pcs[i]
    case Todo => 3
    case At(_) => 2
    case Swapping(pos, oldVal) =>
      EdgeInRange(c, i, pos);
      if s.rank[c.out.edges[pos]] == oldVal then 1 else 3
    case Finished => 0
  }

  ghost function Stages(c: Env, s: State): (r: seq<nat>)
    requires EnvOk(c) && Sized(c, s)
    ensures |r| == c.n
  {
    seq(c.n, i requires 0 <= i < c.n => Stage(c, s, i))
  }

  /** The next step of task `i` is a swap that succeeds. */
  ghost predicate Succeeds(c: Env, s: State, i: nat)
    requires EnvOk(c) && Sized(c, s) && i < c.n
  {
    s.pcs[i].Swapping? && Stage(c, s, i) == 1
  }

  lemma StageBound(c: Env, s: State, i: nat)
    requires EnvOk(c) && Sized(c, s) && i < c.n
    ensures Stage(c, s, i) <= 3
    ensures s.pcs[i].Swapping? ==> Stage(c, s, i) >= 1
  {
  }

  /** A success delivers along one edge. */
  lemma SuccessLeft(c: Env, s: State, i: nat)
    requires EnvOk(c) && Sized(c, s) && i < c.n && !s.pcs[i].Finished? && Succeeds(c, s, i)
    requires Sized(c, Advance(c, s, i))
    ensures Sum(Lefts(c, Advance(c, s, i))) + 1 == Sum(Lefts(c, s))
  {
    var s' := Advance(c, s, i);
    assert PcOk(c, i, s.pcs[i]);
    EdgeInRange(c, i, s.pcs[i].pos);
    assert Left(c, s', i) + 1 == Left(c, s, i);
    hide Represents, Advance;
    SumUpdate(Lefts(c, s), Lefts(c, s'), i);
  }

  /** ... and may outdate what all other tasks have read. */
  lemma SuccessStages(c: Env, s: State, i: nat)
    requires EnvOk(c) && Sized(c, s) && i < c.n && !s.pcs[i].Finished? && Succeeds(c, s, i)
    requires Sized(c, Advance(c, s, i))
    ensures Sum(Stages(c, Advance(c, s, i))) < Sum(Stages(c, s)) + 2 * c.n
  {
    var s' := Advance(c, s, i);
    assert Stage(c, s', i) == 2;
    forall j | 0 <= j < c.n && j != i ensures Stage(c, s', j) <= Stage(c, s, j) + 2 {
      assert s'.pcs[j] == s.pcs[j];
      StageBound(c, s, j);
      StageBound(c, s', j);
    }
    hide Represents, Advance, Stage;
    SumRise(Stages(c, s), Stages(c, s'), i);
  }

  lemma {:induction false} SumRise(a: seq<nat>, b: seq<nat>, i: nat)
    requires |a| == |b| && i < |a|
    requires forall j | 0 <= j < |a| :: b[j] <= a[j] + 2
    requires b[i] <= a[i] + 1
    ensures Sum(b) < Sum(a) + 2 * |a|
  {
    var m := |a| - 1;
    if i < m {
      SumRise(a[..m], b[..m], i);
    } else {
      SumGrowth(a[..m], b[..m]);
    }
  }

  lemma {:induction false} SumGrowth(a: seq<nat>, b: seq<nat>)
    requires |a| == |b|
    requires forall j | 0 <= j < |a| :: b[j] <= a[j] + 2
    ensures Sum(b) <= Sum(a) + 2 * |a|
  {
    if |a| > 0 {
      var m := |a| - 1;
      SumGrowth(a[..m], b[..m]);
    }
  }

  /** Every other step brings its task closer to its next delivery and leaves the others where they are. */
  lemma OtherStep(c: Env, s: State, i: nat)
    requires EnvOk(c) && Sized(c, s) && i < c.n && !s.pcs[i].Finished? && !Succeeds(c, s, i)
    requires Sized(c, Advance(c, s, i))
    ensures Sum(Lefts(c, Advance(c, s, i))) == Sum(Lefts(c, s))
    ensures Sum(Stages(c, Advance(c, s, i))) < Sum(Stages(c, s))
  {
    var s' := Advance(c, s, i);
    assert PcOk(c, i, s.pcs[i]);
    OtherStepOwn(c, s, i);
    forall j | 0 <= j < c.n && j != i ensures Stage(c, s', j) == Stage(c, s, j) && Left(c, s', j) == Left(c, s, j) {
      assert s'.pcs[j] == s.pcs[j];
    }
    hide Represents, Advance, Stage, Left;
    SumUpdate(Stages(c, s), Stages(c, s'), i);
    assert Lefts(c, s') == Lefts(c, s);
  }

  lemma OtherStepOwn(c: Env, s: State, i: nat)
    requires EnvOk(c) && Sized(c, s) && i < c.n && !s.pcs[i].Finished? && !Succeeds(c, s, i)
    requires Sized(c, Advance(c, s, i))
    ensures Advance(c, s, i).rank == s.rank
    ensures forall j | 0 <= j < c.n && j != i :: Advance(c, s, i).pcs[j] == s.pcs[j]
    ensures Stage(c, Advance(c, s, i), i) < Stage(c, s, i)
    ensures Left(c, Advance(c, s, i), i) == Left(c, s, i)
  {
    assert PcOk(c, i, s.pcs[i]);
    if s.pcs[i].Swapping? {
      EdgeInRange(c, i, s.pcs[i].pos);
    }
  }

  /** An upper bound for the number of steps that are still to come. */
  ghost function Potential(c: Env, s: State): nat
    requires EnvOk(c) && Sized(c, s)
  {
    Times(Sum(Lefts(c, s)), 2 * c.n) + Sum(Stages(c, s))
  }

  lemma StepLowersPotential(c: Env, s: State, s': State)
    requires EnvOk(c) && Next(c, s, s')
    ensures Sized(c, s') && Potential(c, s') < Potential(c, s)
  {
    hide Lefts, Stages, Advance, Succeeds, Represents;
    var i :| 0 <= i < c.n && !s.pcs[i].Finished? && s' == Advance(c, s, i);
    AdvanceSized(c, s, i);
    if Succeeds(c, s, i) {
      SuccessLeft(c, s, i);
      SuccessStages(c, s, i);
    } else {
      OtherStep(c, s, i);
    }
  }

  lemma {:induction false} LeftAtStart(c: Env, k: nat)
    requires EnvOk(c) && k <= c.n
    ensures Sized(c, Start(c)) && Sum(Lefts(c, Start(c))[..k]) == c.out.offsets[k]
  {
    if k > 0 {
      LeftAtStart(c, k - 1);
      SumPrefix(Lefts(c, Start(c)), k - 1);
    }
  }

  lemma PotentialAtStart(c: Env)
    requires EnvOk(c)
    ensures Sized(c, Start(c))
    ensures Potential(c, Start(c)) == Times(|c.out.edges|, 2 * c.n) + 3 * c.n
  {
    var left := Lefts(c, Start(c));
    LeftAtStart(c, c.n);
    assert left[..c.n] == left;
    SumConstant(Stages(c, Start(c)), 3);
  }

  lemma TimesIsProduct(k: nat, x: nat)
    ensures Times(k, x) == k * x
  {
    if k > 0 {
      TimesIsProduct(k - 1, x);
      assert k * x == (k - 1) * x + x;
    }
  }

  /** The number of steps left, added to those taken, stays within the bound for the whole loop. */
  lemma {:induction false} ScatterStepsLeft(c: Env, tr: seq<State>, k: nat)
    requires EnvOk(c) && Trace(c, tr) && k < |tr|
    ensures Sized(c, tr[k]) && k + Potential(c, tr[k]) <= Times(|c.out.edges|, 2 * c.n) + 3 * c.n
  {
    hide Potential, Times, EnvOk, Sized, Start;
    if k == 0 {
      PotentialAtStart(c);
    } else {
      ScatterStepsLeft(c, tr, k - 1);
      assert Next(c, tr[k-1], tr[k]);
      StepLowersPotential(c, tr[k-1], tr[k]);
    }
  }

  /** No schedule keeps the retry loops busy for ever: a run has at most `2n` steps per edge and 3 per vertex. */
  lemma ScatterRunsAreBounded(c: Env, tr: seq<State>)
    requires EnvOk(c) && Trace(c, tr)
    ensures |tr| <= |c.out.edges| * (2 * c.n) + 3 * c.n + 1
  {
    hide Potential, EnvOk, Sized;
    ScatterStepsLeft(c, tr, |tr| - 1);
    TimesIsProduct(|c.out.edges|, 2 * c.n);
  }

  /** Every run of the scatter loop can be continued to its end. */
  lemma {:induction false} CompleteScatter(c: Env, tr: seq<State>) returns (full: seq<State>)
    requires EnvOk(c) && Trace(c, tr)
    ensures Trace(c, full) && Done(full[|full|-1]) && tr <= full
    decreases |c.out.edges| * (2 * c.n) + 3 * c.n + 1 - |tr|
  {
    hide EnvOk, Sized, Next, Inv, Potential, Start;
    var s := tr[|tr|-1];
    ScatterStepsLeft(c, tr, |tr| - 1);
    if Done(s) {
      full := tr;
    } else {
      ScatterNeverStuck(c, s);
      var s' :| Next(c, s, s');
      ScatterRunsAreBounded(c, tr + [s']);
      full := CompleteScatter(c, tr + [s']);
    }
  }

  // ---- the halving loop ----

  /** Task `i`: 0 stores half of the sum, 1 resets the sum, 2 is over. */
  datatype Halving = Halving(prev: seq<nat>, rank: seq<nat>, pcs: seq<nat>)

  ghost predicate HalveStep(n: nat, s: Halving, s': Halving, i: nat)
    requires |s.prev| == |s.rank| == |s.pcs| == n && i < n
  {
    if s.pcs[i] == 0 then s' == s.(prev := s.prev[i := s.rank[i] / 2], pcs := s.pcs[i := 1])
    else s.pcs[i] == 1 && s' == s.(rank := s.rank[i := 0], pcs := s.pcs[i := 2])
  }

  ghost predicate HalveNext(n: nat, s: Halving, s': Halving) {
    |s.prev| == |s.rank| == |s.pcs| == n && exists i :: 0 <= i < n && HalveStep(n, s, s', i)
  }

  ghost predicate HalveTrace(n: nat, prev: seq<nat>, rank: seq<nat>, tr: seq<Halving>) {
    && |tr| > 0 && tr[0] == Halving(prev, rank, seq(n, _ => 0))
    && forall k | 0 <= k < |tr| - 1 :: HalveNext(n, tr[k], tr[k+1])
  }

  ghost predicate HalveDone(s: Halving) {
    forall i | 0 <= i < |s.pcs| :: s.pcs[i] == 2
  }

  lemma {:induction false} HalveTraceInv(n: nat, prev: seq<nat>, rank: seq<nat>, tr: seq<Halving>, k: nat)
    requires |prev| == |rank| == n && HalveTrace(n, prev, rank, tr) && k < |tr|
    ensures |tr[k].prev| == |tr[k].rank| == |tr[k].pcs| == n
    ensures forall i | 0 <= i < n ::
      && tr[k].pcs[i] <= 2
      && tr[k].prev[i] == (if tr[k].pcs[i] == 0 then prev[i] else rank[i] / 2)
      && tr[k].rank[i] == (if tr[k].pcs[i] == 2 then 0 else rank[i])
  {
    if k > 0 {
      HalveTraceInv(n, prev, rank, tr, k - 1);
      assert HalveNext(n, tr[k-1], tr[k]);
    }
  }

  lemma HalveNeverStuck(n: nat, s: Halving)
    requires |s.prev| == |s.rank| == |s.pcs| == n && !HalveDone(s)
    requires forall i | 0 <= i < n :: s.pcs[i] <= 2
    ensures exists s' :: HalveNext(n, s, s')
  {
    var i :| 0 <= i < n && s.pcs[i] != 2;
    var s' := if s.pcs[i] == 0 then s.(prev := s.prev[i := s.rank[i] / 2], pcs := s.pcs[i := 1])
      else s.(rank := s.rank[i := 0], pcs := s.pcs[i := 2]);
    assert HalveStep(n, s, s', i);
    assert HalveNext(n, s, s');
  }

  lemma {:induction false} HalveRunsAreBounded(n: nat, prev: seq<nat>, rank: seq<nat>, tr: seq<Halving>, k: nat)
    requires |prev| == |rank| == n && HalveTrace(n, prev, rank, tr) && k < |tr|
    ensures k + Sum(Countdown(tr[k].pcs, 2)) <= n * 2
  {
    hide Countdown;
    if k == 0 {
      CountdownStart(n, 2);
    } else {
      HalveRunsAreBounded(n, prev, rank, tr, k - 1);
      assert HalveNext(n, tr[k-1], tr[k]);
      var i :| 0 <= i < n && HalveStep(n, tr[k-1], tr[k], i);
      CountdownStep(tr[k-1].pcs, 2, i, tr[k].pcs[i]);
    }
  }

  /** Every run of the halving loop can be continued to its end. */
  lemma {:induction false} CompleteHalving(n: nat, prev: seq<nat>, rank: seq<nat>, tr: seq<Halving>)
    returns (full: seq<Halving>)
    requires |prev| == |rank| == n && HalveTrace(n, prev, rank, tr)
    ensures HalveTrace(n, prev, rank, full) && HalveDone(full[|full|-1]) && tr <= full
    decreases n * 2 + 1 - |tr|
  {
    hide HalveNext, Countdown, Sum;
    var s := tr[|tr|-1];
    HalveTraceInv(n, prev, rank, tr, |tr| - 1);
    HalveRunsAreBounded(n, prev, rank, tr, |tr| - 1);
    if HalveDone(s) {
      full := tr;
    } else {
      HalveNeverStuck(n, s);
      var s' :| HalveNext(n, s, s');
      full := CompleteHalving(n, prev, rank, tr + [s']);
    }
  }

  // ---- whole runs ----

  datatype Head = Head(prev: seq<nat>, rank: seq<nat>)

  ghost predicate IterationBy(n: nat, es: seq<Edge>, out: Csr, h: Head, h': Head,
                              scatter: seq<State>, halve: seq<Halving>) {
    var c := Env(n, es, out, h.prev, h.rank);
    && EnvOk(c) && Trace(c, scatter) && Done(scatter[|scatter|-1])
    && HalveTrace(n, h.prev, scatter[|scatter|-1].rank, halve) && HalveDone(halve[|halve|-1])
    && h' == Head(halve[|halve|-1].prev, halve[|halve|-1].rank)
  }

  ghost predicate Iteration(n: nat, es: seq<Edge>, out: Csr, h: Head, h': Head) {
    exists scatter, halve :: IterationBy(n, es, out, h, h', scatter, halve)
  }

  /** A run of `pr_push` on the values `first`, with all sums zero. */
  ghost predicate Run(n: nat, es: seq<Edge>, out: Csr, first: seq<nat>, hs: seq<Head>) {
    && |hs| > 0 && hs[0] == Head(first, seq(n, _ => 0))
    && forall k | 0 <= k < |hs| - 1 :: Iteration(n, es, out, hs[k], hs[k+1])
  }

  lemma IterationResult(n: nat, es: seq<Edge>, out: Csr, prev: seq<nat>, h': Head)
    requires InRange(es, n) && |prev| == n && Iteration(n, es, out, Head(prev, seq(n, _ => 0)), h')
    ensures h' == Head(Iterate(es, n, prev), seq(n, _ => 0))
  {
    var h := Head(prev, seq(n, _ => 0));
    var scatter: seq<State>, halve: seq<Halving> :| IterationBy(n, es, out, h, h', scatter, halve);
    var c := Env(n, es, out, h.prev, h.rank);
    ScatterResult(c, scatter);
    HalveTraceInv(n, h.prev, scatter[|scatter|-1].rank, halve, |halve| - 1);
    assert h'.prev == Iterate(es, n, prev);
    assert h'.rank == seq(n, _ => 0);
  }

  /** For every schedule and every number of iterations, `pr_push` computes the same values. */
  lemma {:induction false} RunResult(n: nat, es: seq<Edge>, out: Csr, first: seq<nat>, hs: seq<Head>, k: nat)
    requires InRange(es, n) && |first| == n && Run(n, es, out, first, hs) && k < |hs|
    ensures hs[k] == Head(RanksFrom(es, n, first, k), seq(n, _ => 0))
  {
    if k > 0 {
      RunResult(n, es, out, first, hs, k - 1);
      assert Iteration(n, es, out, hs[k-1], hs[k]);
      IterationResult(n, es, out, RanksFrom(es, n, first, k - 1), hs[k]);
    }
  }

  lemma RanksAreWords(es: seq<Edge>, n: nat, first: seq<nat>, k: nat)
    requires |first| == n && forall v | 0 <= v < n :: first[v] < WORD
    ensures forall v | 0 <= v < n :: RanksFrom(es, n, first, k)[v] < WORD
  {
  }

  /** One more iteration can always be run. */
  lemma AnotherIteration(n: nat, es: seq<Edge>, out: Csr, h: Head) returns (h': Head)
    requires EnvOk(Env(n, es, out, h.prev, h.rank))
    ensures Iteration(n, es, out, h, h')
  {
    var c := Env(n, es, out, h.prev, h.rank);
    var scatter := CompleteScatter(c, [Start(c)]);
    ScatterResult(c, scatter);
    var rank := scatter[|scatter|-1].rank;
    var halve := CompleteHalving(n, h.prev, rank, [Halving(h.prev, rank, seq(n, _ => 0))]);
    h' := Head(halve[|halve|-1].prev, halve[|halve|-1].rank);
    assert IterationBy(n, es, out, h, h', scatter, halve);
  }

  /** Every run can be continued to any number of iterations. */
  lemma {:induction false} CompleteIterations(n: nat, es: seq<Edge>, out: Csr, first: seq<nat>, hs: seq<Head>, k: nat)
    returns (full: seq<Head>)
    requires InRange(es, n) && Represents(out, n, es) && |first| == n && forall v | 0 <= v < n :: first[v] < WORD
    requires Run(n, es, out, first, hs) && |hs| <= k + 1
    ensures Run(n, es, out, first, full) && |full| == k + 1 && hs <= full
    decreases k + 1 - |hs|
  {
    hide Represents, InRange, Iteration, RanksFrom;
    if |hs| == k + 1 {
      full := hs;
    } else {
      var j := |hs| - 1;
      RunResult(n, es, out, first, hs, j);
      RanksAreWords(es, n, first, j);
      var h' := AnotherIteration(n, es, out, hs[j]);
      full := CompleteIterations(n, es, out, first, hs + [h'], k);
    }
  }

  // ---- magnitudes ----

  function Pow(b: nat, e: nat): nat {
    if e == 0 then 1 else b * Pow(b, e - 1)
  }

  lemma {:induction false} PowLaws(b: nat, m: nat, n: nat)
    ensures Pow(b, 0) == 1 && Pow(b, 1) == b
    ensures Pow(b, m + n) == Pow(b, m) * Pow(b, n)
  {
    if n == 0 {
      assert Pow(b, 0) == 1;
    } else {
      PowLaws(b, m, n - 1);
      assert b * (Pow(b, m) * Pow(b, n - 1)) == Pow(b, m) * (b * Pow(b, n - 1));
    }
  }

  ghost predicate InDegreesAtMost(es: seq<Edge>, n: nat, d: nat) {
    forall v | 0 <= v < n :: Degree(Reverse(es), v) <= d
  }

  lemma {:induction false} MultiplyLe(a: nat, b: nat, c: nat)
    requires a <= b
    ensures a * c <= b * c
  {
    if c > 0 {
      MultiplyLe(a, b, c - 1);
    }
  }

  /** If `a * prev[u] <= b` for all `u`, then a vertex gathers at most `b / (2 * a)` per incoming edge. */
  lemma {:induction false} GatherBound(es: seq<Edge>, prev: seq<nat>, v: nat, a: nat, b: nat)
    requires forall u | 0 <= u < |prev| :: a * prev[u] <= b
    ensures 2 * (a * Gather(es, prev, v)) <= Degree(Reverse(es), v) * b
  {
    if |es| > 0 {
      var m := |es| - 1;
      GatherBound(es[..m], prev, v, a, b);
      assert Reverse(es)[..m] == Reverse(es[..m]);
      if es[m].dst == v {
        assert Degree(Reverse(es), v) == Degree(Reverse(es[..m]), v) + 1;
        var x := if es[m].src < |prev| then prev[es[m].src] else 0;
        assert a * x <= b;
        OneMoreEdge(a, Gather(es[..m], prev, v), x, Degree(Reverse(es[..m]), v), b);
      }
    }
  }

  lemma OneMoreEdge(a: nat, rest: nat, x: nat, deg: nat, b: nat)
    requires 2 * (a * rest) <= deg * b && a * x <= b
    ensures 2 * (a * (rest + x / 2)) <= (deg + 1) * b
  {
    HalfBound(a, x, b);
    assert a * (rest + x / 2) == a * rest + a * (x / 2);
    assert (deg + 1) * b == deg * b + b;
  }

  lemma HalfBound(a: nat, x: nat, b: nat)
    requires a * x <= b
    ensures 2 * (a * (x / 2)) <= b
  {
    assert 2 * (x / 2) <= x;
    assert a * (2 * (x / 2)) <= a * x;
    assert 2 * (a * (x / 2)) == a * (2 * (x / 2));
  }

  /** After `k` iterations, with in-degrees at most `d`: `4^k * prev[v] <= 4 * d^k`. */
  lemma {:induction false} RanksBounded(es: seq<Edge>, n: nat, d: nat, k: nat)
    requires InDegreesAtMost(es, n, d)
    ensures forall v | 0 <= v < n :: Pow(4, k) * Ranks(es, n, k)[v] <= 4 * Pow(d, k)
  {
    if k > 0 {
      RanksBounded(es, n, d, k - 1);
      forall v | 0 <= v < n ensures Pow(4, k) * Ranks(es, n, k)[v] <= 4 * Pow(d, k) {
        GatherScaled(es, n, d, k - 1, v);
        var g, a := Gather(es, Ranks(es, n, k - 1), v), Pow(4, k - 1);
        Quarter(a, g);
      }
    }
  }

  lemma Quarter(a: nat, g: nat)
    ensures 4 * a * (Wrap(g) / 2) <= 2 * (a * g)
  {
    var h := Wrap(g) / 2;
    assert 2 * h <= g;
    assert a * (2 * h) <= a * g;
    assert 4 * a * h == 2 * (a * (2 * h));
  }

  /** What a vertex gathers in iteration `k`, scaled: `2 * 4^k * gathered <= 4 * d^(k+1)`. */
  lemma GatherScaled(es: seq<Edge>, n: nat, d: nat, k: nat, v: nat)
    requires InDegreesAtMost(es, n, d) && v < n
    requires forall u | 0 <= u < n :: Pow(4, k) * Ranks(es, n, k)[u] <= 4 * Pow(d, k)
    ensures 2 * (Pow(4, k) * Gather(es, Ranks(es, n, k), v)) <= 4 * Pow(d, k + 1)
  {
    assert Pow(d, k + 1) == d * Pow(d, k);
    hide Pow, Gather, Ranks, Degree, Reverse;
    var b, deg := 4 * Pow(d, k), Degree(Reverse(es), v);
    GatherBound(es, Ranks(es, n, k), v, Pow(4, k), b);
    MultiplyLe(deg, d, b);
    Regroup(d, Pow(d, k));
  }

  lemma Regroup(d: nat, p: nat)
    ensures d * (4 * p) == 4 * (d * p)
  {
  }

  lemma {:induction false} PowPositive(b: nat, e: nat)
    requires b > 0
    ensures Pow(b, e) > 0
  {
    if e > 0 {
      PowPositive(b, e - 1);
      assert b * Pow(b, e - 1) > 0;
    }
  }

  lemma CancelFactor(a: nat, x: nat, y: nat)
    requires a > 0 && a * x < y * a
    ensures x < y
  {
  }

  /** While `2 * d^(k+1) < 2^32 * 4^k`, everything gathered in iteration `k` fits 32 bits. */
  lemma GatherFits(es: seq<Edge>, n: nat, d: nat, k: nat, v: nat)
    requires InDegreesAtMost(es, n, d) && v < n
    requires 2 * Pow(d, k + 1) < WORD * Pow(4, k)
    ensures Gather(es, Ranks(es, n, k), v) < WORD
  {
    RanksBounded(es, n, d, k);
    GatherScaled(es, n, d, k, v);
    PowPositive(4, k);
    CancelFactor(Pow(4, k), Gather(es, Ranks(es, n, k), v), WORD);
  }

  lemma {:induction false} PowMonotone(b: nat, c: nat, e: nat)
    requires b <= c
    ensures Pow(b, e) <= Pow(c, e)
  {
    if e > 0 {
      PowMonotone(b, c, e - 1);
      MultiplyLe(b, c, Pow(b, e - 1));
      MultiplyLe(Pow(b, e - 1), Pow(c, e - 1), c);
    }
  }

  /** With in-degrees at most 4 the bound holds for every iteration. */
  lemma SmallDegreesNeverWrap(es: seq<Edge>, n: nat, d: nat, k: nat, v: nat)
    requires InDegreesAtMost(es, n, d) && d <= 4 && v < n
    ensures Gather(es, Ranks(es, n, k), v) < WORD
  {
    PowMonotone(d, 4, k + 1);
    PowPositive(4, k);
    GatherFits(es, n, d, k, v);
  }

  /**
   * If what `v` gathers fits 32 bits and the sums start at zero, no addition to `rank[v]` ever
   * wraps around: at every reachable state the next swap there stores the exact sum.
   */
  lemma NoAdditionWraps(c: Env, s: State, i: nat, v: nat)
    requires Inv(c, s) && i < c.n && s.pcs[i].Swapping? && v < c.n
    requires c.rank0[v] == 0 && Gather(c.es, c.prev, v) < WORD
    requires Delivers(c, s, i, v) > 0
    ensures s.rank[v] + Delivers(c, s, i, v) < WORD
  {
    hide Scattered, Gather, RowSums, Represents;
    AdvanceSized(c, s, i);
    AdvanceContributions(c, s, i, v);
    PartialSumBound(c, s, v);
    PartialSumBound(c, Advance(c, s, i), v);
    assert RankOk(c, s, v);
  }

  /** The two bounds together: with in-degrees at most `d`, no addition of iteration `k` wraps around. */
  lemma IterationNeverWraps(c: Env, s: State, i: nat, v: nat, d: nat, k: nat)
    requires Inv(c, s) && i < c.n && s.pcs[i].Swapping? && v < c.n && Delivers(c, s, i, v) > 0
    requires c.prev == Ranks(c.es, c.n, k) && c.rank0 == seq(c.n, _ => 0)
    requires InDegreesAtMost(c.es, c.n, d) && 2 * Pow(d, k + 1) < WORD * Pow(4, k)
    ensures s.rank[v] + Delivers(c, s, i, v) < WORD
  {
    hide Pow, Inv, Ranks;
    GatherFits(c.es, c.n, d, k, v);
    NoAdditionWraps(c, s, i, v);
  }

  lemma PartialSumBound(c: Env, s: State, v: nat)
    requires EnvOk(c) && Sized(c, s) && v < c.n
    ensures Sum(Contributions(c, s, v)) <= Gather(c.es, c.prev, v)
  {
    forall i | 0 <= i < c.n ensures Contributions(c, s, v)[i] <= RowSums(c.es, c.prev, v)[i] {
      FullRow(c, i, v);
      CompletedIsPrefix(c, s, i, v);
    }
    SumMonotone(Contributions(c, s, v), RowSums(c.es, c.prev, v));
    ScatterIsGather(c.es, c.prev, v);
  }

  lemma CompletedIsPrefix(c: Env, s: State, i: nat, v: nat)
    requires EnvOk(c) && Sized(c, s) && i < c.n && v < c.n
    ensures Scattered(Delta(c, i), Completed(c, s, i), v) <= Scattered(Delta(c, i), Segment(c.out, c.n, i), v)
  {
    assert PcOk(c, i, s.pcs[i]);
    assert c.out.offsets[i] <= c.out.offsets[i + 1] <= c.out.offsets[c.n];
    var done := Completed(c, s, i);
    assert Segment(c.out, c.n, i)[..|done|] == done;
    ScatteredPrefix(Delta(c, i), Segment(c.out, c.n, i), |done|, v);
  }

  lemma {:induction false} ScatteredPrefix(delta: nat, ds: seq<nat>, k: nat, v: nat)
    requires k <= |ds|
    ensures Scattered(delta, ds[..k], v) <= Scattered(delta, ds, v)
  {
    if k == |ds| {
      assert ds[..k] == ds;
    } else {
      ScatteredPrefix(delta, ds[..|ds|-1], k, v);
      assert ds[..|ds|-1][..k] == ds[..k];
    }
  }
}
