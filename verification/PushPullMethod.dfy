/**
 * `bfs_pushpull` as it runs: a push loop with edge accounting and the switch test, then the pull
 * loop, which is entered by the jump as well as by falling out of the push loop.
 */
module PushPullMethod {
  import opened Sums
  import opened Words
  import opened Graphs
  import opened GraphLoading
  import opened PushRounds
  import opened BfsSearch
  import opened BfsAccounting
  import opened BfsMethods

  /** What `list` lists are vertices, and `total` is the sum of their out-degrees. */
  ghost predicate Totals(c: Env, list: seq<nat>, total: nat)
    requires EnvOk(c)
  {
    Below(list, c.n) && total == Sum(Pick(OutDegrees(c.out, c.n), list))
  }

  lemma TotalsAppend(c: Env, list: seq<nat>, total: nat, v: nat)
    requires EnvOk(c) && Totals(c, list, total) && v < c.n
    ensures Totals(c, list + [v], total + OutDegrees(c.out, c.n)[v])
  {
    var w := OutDegrees(c.out, c.n);
    assert Pick(w, list + [v]) == Pick(w, list) + [w[v]];
    SumConcat(Pick(w, list), [w[v]]);
  }

  /** `total` increased by the length of row `v`. */
  method AddRowLength(g: Graph, total: nat, v: nat, ghost c: Env, ghost list: seq<nat>) returns (total': nat)
    requires EnvOk(c) && c.out == g.OutCsr() && v < c.n && Totals(c, list, total)
    ensures Totals(c, list + [v], total')
  {
    TotalsAppend(c, list, total, v);
    total' := total + (g.outEdgeOffsets[v + 1] - g.outEdgeOffsets[v]);
  }

  /** The body of the edge loop: claim, append to the next frontier, count the new vertex's edges. */
  method Claim(g: Graph, visited: array<nat>, dst: nat, found: seq<nat>, edges: nat, ghost c: Env)
    returns (found': seq<nat>, edges': nat)
    requires EnvOk(c) && c.out == g.OutCsr() && dst < c.n == visited.Length && Totals(c, found, edges)
    requires visited !in {g.outEdges, g.outEdgeOffsets}
    modifies visited
    ensures Totals(c, found', edges')
    ensures if old(visited[dst]) == 0
            then visited[..] == old(visited[..])[dst := 1] && found' == found + [dst]
            else visited[..] == old(visited[..]) && found' == found
  {
    hide EnvOk, Totals;
    found', edges' := found, edges;
    var ok := CompareAndSwap(visited, dst, 0, 1);
    if ok {
      found' := found + [dst];
      edges' := AddRowLength(g, edges, dst, c, found);
    }
  }

  /** The row of one frontier entry. */
  method PushRow(g: Graph, visited: array<nat>, src: nat, found0: seq<nat>, edges0: nat,
                 ghost c: Env, ghost s: State, ghost i: nat)
    returns (found: seq<nat>, edges: nat, ghost s': State)
    requires Inv(c, s) && c.out == g.OutCsr() && c.threads == 1 && i < |c.frontier| && src == c.frontier[i]
    requires s.pcs[0] == RowStart(c, i) && visited[..] == s.visited && found0 == s.buffers[0]
    requires Totals(c, found0, edges0)
    requires visited !in {g.outEdges, g.outEdgeOffsets}
    modifies visited
    ensures Inv(c, s') && visited[..] == s'.visited && found == s'.buffers[0]
    ensures s'.pending == s.pending && s'.pcs == s.pcs[0 := Idle] && |s'.buffers| == |s.buffers|
    ensures Totals(c, found, edges)
  {
    hide Inv, Sized, EnvOk, Totals;
    ScanStart(c, s, 0, i);
    found, edges, s' := found0, edges0, s;
    var beg, end := g.outEdgeOffsets[src], g.outEdgeOffsets[src + 1];
    while beg < end
      invariant beg <= end <= |c.out.edges| && Scanning(c, s, s', 0, beg, end)
      invariant visited[..] == s'.visited && found == s'.buffers[0] && Totals(c, found, edges)
      invariant c.out == g.OutCsr()
    {
      s' := ScanEdge(c, s, s', 0, beg, end);
      found, edges := Claim(g, visited, g.outEdges[beg], found, edges, c);
      beg := beg + 1;
    }
    s' := ReplayRowEnd(c, s', 0);
  }

  /** The parallel loop of the push phase, in index order by one worker, and its two flushes. */
  method CountedExpand(g: Graph, visited: array<nat>, frontier: seq<nat>, explored: nat, ghost c: Env)
    returns (found: seq<nat>, explored': nat, edges: nat, ghost s: State)
    requires EnvOk(c) && c.out == g.OutCsr() && c.threads == 1 && frontier == c.frontier
    requires visited[..] == c.visited0 && visited !in {g.outEdges, g.outEdgeOffsets}
    modifies visited
    ensures Inv(c, s) && Done(s) && visited[..] == s.visited && s.buffers == [found]
    ensures Below(found, c.n) && edges == Sum(Pick(OutDegrees(c.out, c.n), found))
    ensures explored' == explored + Sum(Pick(OutDegrees(c.out, c.n), frontier))
  {
    hide Inv, EnvOk, Start, Totals;
    s := Start(c);
    StartShape(c);
    StartTotals(c);
    found, edges := [], 0;
    var localExplored := 0;
    assert frontier[..0] == [];
    for i := 0 to |frontier|
      invariant Inv(c, s) && visited[..] == s.visited && s.buffers == [found]
      invariant forall k :: k in s.pending <==> i <= k < |frontier|
      invariant s.pcs == [Idle]
      invariant Totals(c, found, edges) && Totals(c, frontier[..i], localExplored)
      invariant c.out == g.OutCsr()
    {
      s := ReplayTake(c, s, 0, i);
      localExplored := AddRowLength(g, localExplored, frontier[i], c, frontier[..i]);
      assert frontier[..i] + [frontier[i]] == frontier[..i+1];
      found, edges, s := PushRow(g, visited, frontier[i], found, edges, c, s, i);
    }
    assert frontier[..|frontier|] == frontier;
    explored' := explored + localExplored;
    TotalsMeaning(c, found, edges);
    TotalsMeaning(c, frontier, localExplored);
  }

  lemma StartTotals(c: Env)
    requires EnvOk(c)
    ensures Totals(c, [], 0) && Below(c.frontier, c.n)
  {
  }

  lemma TotalsMeaning(c: Env, list: seq<nat>, total: nat)
    requires EnvOk(c) && Totals(c, list, total)
    ensures Below(list, c.n) && total == Sum(Pick(OutDegrees(c.out, c.n), list))
  {
  }

  /** One iteration of the push loop after the switch test has let it through. */
  method CountedIteration(g: Graph, visited: array<nat>, frontier: seq<nat>, explored: nat,
                          ghost inst: Instance, ghost edges0: nat, ghost j: nat)
    returns (found: seq<nat>, explored': nat, edges: nat)
    requires InstanceOk(inst) && inst.out == g.OutCsr() && inst.threads == 1
    requires Accounted(inst, CountedHead(Head(visited[..], frontier, j), explored, edges0), j)
    requires visited !in {g.outEdges, g.outEdgeOffsets}
    modifies visited
    ensures Accounted(inst, CountedHead(Head(visited[..], found, j + 1), explored', edges), j + 1)
  {
    hide Inv, EnvOk, Ball, Level, AtLevel;
    ghost var h := CountedHead(Head(visited[..], frontier, j), explored, edges0);
    LevelEnvOk(inst, h.head, j, false);
    ghost var c := RoundEnv(inst, h.head, false);
    FrontierSum(inst, h.head, j);
    ghost var s;
    found, explored', edges, s := CountedExpand(g, visited, frontier, explored, c);
    ghost var h' := CountedHead(Head(visited[..], found, j + 1), explored', edges);
    assert Concat([found]) == found by {
      ConcatPrefix([found], 0);
      assert [found][..1] == [found] && [found][..0] == [];
    }
    DoneReachesNextLevel(inst, false, h.head, h'.head, s, j, j + 1);
    AccountsAfter(inst, h, h', j, j + 1);
  }

  /** The seeding loop of the pull phase. */
  method SeedFlags(flags: array<bool>, frontier: seq<nat>)
    requires Below(frontier, flags.Length) && forall v | 0 <= v < flags.Length :: !flags[v]
    modifies flags
    ensures flags[..] == Seed(flags.Length, frontier)
  {
    for i := 0 to |frontier|
      invariant forall v | 0 <= v < flags.Length :: flags[v] <==> v in frontier[..i]
    {
      assert frontier[..i+1] == frontier[..i] + [frontier[i]];
      flags[frontier[i]] := true;
    }
    assert frontier[..|frontier|] == frontier;
  }

  /** `bfs_pushpull`, started with no vertex visited and both frontiers empty. */
  method BfsPushPull(g: Graph, start: nat, visited: array<nat>, ghost es: seq<Edge>)
    requires start < g.nbNodes && g.Shape() && InRange(es, g.nbNodes)
    requires Represents(g.OutCsr(), g.nbNodes, es) && Represents(g.InCsr(), g.nbNodes, Reverse(es))
    requires visited.Length == g.nbNodes && forall i | 0 <= i < visited.Length :: visited[i] == 0
    requires visited !in {g.outEdges, g.outEdgeOffsets, g.inEdges, g.inEdgeOffsets}
    modifies visited
    ensures forall i | 0 <= i < visited.Length :: visited[i] == if Reachable(es, start, i) then 1 else 0
  {
    hide Ball, Level, Represents;
    ghost var inst := Instance(g.nbNodes, 1, es, g.OutCsr(), g.InCsr(), start);
    visited[start] := 1;
    assert visited[..] == StartVisited(inst);
    var frontier, level := PushPhase(g, visited, start, inst);
    var inFrontier := new bool[g.nbNodes](_ => false);
    var inFrontierNext := new bool[g.nbNodes](_ => false);
    ghost var h := Head(visited[..], frontier, level);
    LevelEnvOk(inst, h, level, false);
    SeedFlags(inFrontier, frontier);
    SeedIsLevel(inst, h, level);
    assert inFrontier[..] == Seed(inst.n, frontier);
    var iterations := PullLoop(g, visited, inFrontier, inFrontierNext, inst, level);
    forall i | 0 <= i < g.nbNodes ensures visited[i] == if Reachable(es, start, i) then 1 else 0 {
      assert i in VisitedSet(visited[..]) <==> visited[i] != 0;
    }
  }

  /** The push loop. As long as the edges can be counted in a `size_t`, the switch test never ends it. */
  method PushPhase(g: Graph, visited: array<nat>, start: nat, ghost inst: Instance)
    returns (frontier: seq<nat>, ghost level: nat)
    requires InstanceOk(inst) && inst.out == g.OutCsr() && inst.threads == 1 && g.Shape() && start == inst.start
    requires visited[..] == StartVisited(inst) && visited !in {g.outEdges, g.outEdgeOffsets}
    modifies visited
    ensures AtLevel(inst, Head(visited[..], frontier, level), level)
    ensures g.outEdges.Length < 0x1_0000_0000_0000_0000 ==> frontier == []
  {
    hide Ball, Level, Represents;
    frontier, level := [start], 0;
    var explored: nat, edgesInFrontier: nat := 0, 0;
    StartAccounted(inst);
    while |frontier| != 0
      invariant inst.out == g.OutCsr()
      invariant Accounted(inst, CountedHead(Head(visited[..], frontier, level), explored, edgesInFrontier), level)
      invariant |inst.out.edges| == g.outEdges.Length
      decreases inst.n - level
    {
      var unexplored := (g.outEdges.Length - explored) % SIZE_T;
      AccountsStayBelow(inst, CountedHead(Head(visited[..], frontier, level), explored, edgesInFrontier), level);
      if edgesInFrontier > unexplored { break; }
      LevelEnvOk(inst, Head(visited[..], frontier, level), level, false);
      LevelIndexBound(inst.es, inst.start, level, inst.n);
      frontier, explored, edgesInFrontier :=
        CountedIteration(g, visited, frontier, explored, inst, edgesInFrontier, level);
      level := level + 1;
    }
  }
}
