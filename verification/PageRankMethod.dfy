/** `pr_hub` and `pr_push` as they run, in index order, on the arrays `rank` and `prev`. */
module PageRankMethod {
  import opened Words
  import opened Graphs
  import opened GraphLoading
  import opened PageRank
  import AtomicAdd

  /** A read and a swap of task `i` without interference. */
  lemma ReplayAdd(c: Env, s: State, i: nat, pos: nat) returns (s': State)
    requires Inv(c, s) && i < c.n && s.pcs[i] == At(pos) && pos < c.out.offsets[i + 1]
    ensures Inv(c, s') && pos < |c.out.edges| && c.out.edges[pos] < c.n
    ensures var dst := c.out.edges[pos];
      s' == State(s.rank[dst := Wrap(s.rank[dst] + c.prev[i] / 2)], s.pcs[i := At(pos + 1)])
  {
    assert PcOk(c, i, s.pcs[i]);
    EdgeInRange(c, i, pos);
    AdvanceInv(c, s, i);
    var s1 := Advance(c, s, i);
    AdvanceInv(c, s1, i);
    s' := Advance(c, s1, i);
  }

  lemma ReplayBegin(c: Env, s: State, i: nat) returns (s': State)
    requires Inv(c, s) && i < c.n && s.pcs[i] == Todo
    ensures Inv(c, s') && s' == State(s.rank, s.pcs[i := At(c.out.offsets[i])])
    ensures c.out.offsets[i] <= c.out.offsets[i + 1] <= |c.out.edges|
  {
    assert c.out.offsets[i] <= c.out.offsets[i + 1] <= c.out.offsets[c.n];
    AdvanceInv(c, s, i);
    s' := Advance(c, s, i);
  }

  lemma ReplayEnd(c: Env, s: State, i: nat) returns (s': State)
    requires Inv(c, s) && i < c.n && s.pcs[i] == At(c.out.offsets[i + 1])
    ensures Inv(c, s') && s' == State(s.rank, s.pcs[i := Finished])
  {
    AdvanceInv(c, s, i);
    s' := Advance(c, s, i);
  }

  lemma InBounds(c: Env, s: State)
    requires Inv(c, s)
    ensures EnvOk(c) && |s.rank| == |s.pcs| == |c.prev| == c.n && |c.out.offsets| == c.n + 1
    ensures forall v | 0 <= v < c.n :: c.prev[v] < WORD
  {
  }

  /** All additions of vertex `i`. */
  method ScatterVertex(g: Graph, rank: array<nat>, prev: array<nat>, i: nat, ghost c: Env, ghost s: State)
    returns (ghost s': State)
    requires Inv(c, s) && c.out == g.OutCsr() && i < c.n && s.pcs[i] == Todo
    requires rank[..] == s.rank && prev[..] == c.prev
    requires rank !in {g.outEdges, g.outEdgeOffsets, prev}
    modifies rank
    ensures Inv(c, s') && rank[..] == s'.rank && s'.pcs == s.pcs[i := Finished]
  {
    hide Inv, EnvOk;
    InBounds(c, s);
    s' := ReplayBegin(c, s, i);
    var beg, end := g.outEdgeOffsets[i], g.outEdgeOffsets[i + 1];
    var delta := prev[i] / 2;
    while beg < end
      invariant beg <= end == c.out.offsets[i + 1] <= |c.out.edges|
      invariant Inv(c, s') && s'.pcs == s.pcs[i := At(beg)] && rank[..] == s'.rank
      invariant c.out == g.OutCsr()
    {
      s' := ReplayAdd(c, s', i, beg);
      AtomicAdd.Add(rank, g.outEdges[beg], delta);
      beg := beg + 1;
    }
    s' := ReplayEnd(c, s', i);
  }

  /** The scatter loop. */
  method ScatterAll(g: Graph, rank: array<nat>, prev: array<nat>, ghost c: Env)
    requires EnvOk(c) && c.out == g.OutCsr() && c.n == rank.Length
    requires rank[..] == c.rank0 && prev[..] == c.prev
    requires rank !in {g.outEdges, g.outEdgeOffsets, prev}
    modifies rank
    ensures forall v | 0 <= v < c.n :: rank[v] == (c.rank0[v] + Gather(c.es, c.prev, v)) % 0x1_0000_0000
  {
    hide Inv, EnvOk, Gather;
    ghost var s := Start(c);
    StartInv(c);
    for i := 0 to rank.Length
      invariant Inv(c, s) && rank[..] == s.rank && |s.pcs| == c.n
      invariant forall k | 0 <= k < c.n :: s.pcs[k] == if k < i then Finished else Todo
      invariant c.out == g.OutCsr()
    {
      s := ScatterVertex(g, rank, prev, i, c, s);
    }
    forall v | 0 <= v < c.n ensures rank[v] == (c.rank0[v] + Gather(c.es, c.prev, v)) % 0x1_0000_0000 {
      DoneResult(c, s, v);
      WrapIsCongruent(c.rank0[v] + Gather(c.es, c.prev, v), 0);
    }
  }

  /** The halving loop. */
  method HalveAll(rank: array<nat>, prev: array<nat>)
    requires rank.Length == prev.Length && rank != prev
    modifies rank, prev
    ensures forall v | 0 <= v < rank.Length :: prev[v] == old(rank[v]) / 2 && rank[v] == 0
  {
    for i := 0 to rank.Length
      invariant forall v | 0 <= v < i :: prev[v] == old(rank[v]) / 2 && rank[v] == 0
      invariant forall v | i <= v < rank.Length :: rank[v] == old(rank[v])
    {
      prev[i] := rank[i] / 2;
      rank[i] := 0;
    }
  }

  /** `pr_push`. */
  method PrPush(g: Graph, rank: array<nat>, prev: array<nat>, iteration: nat, ghost es: seq<Edge>)
    requires InRange(es, g.nbNodes) && g.Shape() && Represents(g.OutCsr(), g.nbNodes, es)
    requires rank.Length == prev.Length == g.nbNodes && rank != prev
    requires {rank, prev} !! {g.outEdges, g.outEdgeOffsets}
    requires rank[..] == seq(g.nbNodes, _ => 0) && forall v | 0 <= v < g.nbNodes :: prev[v] < WORD
    modifies rank, prev
    ensures prev[..] == RanksFrom(es, g.nbNodes, old(prev[..]), iteration)
    ensures rank[..] == seq(g.nbNodes, _ => 0)
  {
    hide Represents, Gather, InRange;
    ghost var n, first := g.nbNodes, prev[..];
    for it := 0 to iteration
      invariant prev[..] == RanksFrom(es, n, first, it)
      invariant rank[..] == seq(n, _ => 0)
      invariant Represents(g.OutCsr(), n, es)
    {
      RanksAreWords(es, n, first, it);
      ghost var c := Env(n, es, g.OutCsr(), prev[..], rank[..]);
      ScatterAll(g, rank, prev, c);
      HalveAll(rank, prev);
      assert prev[..] == Iterate(es, n, c.prev);
    }
  }

  /** `pr_hub` with the push option: zeroed sums, initial values 4, then the iterations. */
  method PrHub(g: Graph, iteration: nat, ghost es: seq<Edge>) returns (prev: array<nat>)
    requires InRange(es, g.nbNodes) && g.Shape() && Represents(g.OutCsr(), g.nbNodes, es)
    ensures fresh(prev) && prev[..] == RanksFrom(es, g.nbNodes, seq(g.nbNodes, _ => 4), iteration)
    ensures prev[..] == Ranks(es, g.nbNodes, iteration)
  {
    var rank := new nat[g.nbNodes](_ => 0);
    prev := new nat[g.nbNodes](_ => 4);
    assert prev[..] == seq(g.nbNodes, _ => 4);
    PrPush(g, rank, prev, iteration, es);
  }
}
