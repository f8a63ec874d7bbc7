/**
 * The searches of `bfs.cpp` as they run, on arrays and thread buffers. The parallel loops are run
 * in index order; the push loop replays that schedule in the transition system, so every statement
 * that touches shared memory is one of its steps.
 */
module BfsMethods {
  import opened Sums
  import opened Graphs
  import opened GraphLoading
  import opened ThreadBuffers
  import opened PushRounds
  import opened PullPasses
  import opened BfsSearch

  // ---- replaying the push round ----

  lemma InBounds(c: Env, s: State)
    requires Inv(c, s)
    ensures EnvOk(c) && Sized(c, s)
  {
  }

  lemma ReplayTake(c: Env, s: State, t: nat, i: nat) returns (s': State)
    requires Inv(c, s) && t < c.threads && s.pcs[t].Idle? && i in s.pending
    ensures Inv(c, s') && s' == s.(pending := s.pending - {i}, pcs := s.pcs[t := RowStart(c, i)])
  {
    s' := s.(pending := s.pending - {i}, pcs := s.pcs[t := RowStart(c, i)]);
    TakeInv(c, s, s', t, i);
  }

  /** What scanning one edge does when nobody interferes. */
  ghost function AfterEdge(c: Env, s: State, t: nat, dst: nat, pos: nat, end: nat): State
    requires Sized(c, s) && t < c.threads && dst < c.n
  {
    var s1 := s.(pcs := s.pcs[t := Scan(pos + 1, end)]);
    if s.visited[dst] == 0
    then s1.(visited := s.visited[dst := 1], buffers := s.buffers[t := s.buffers[t] + [dst]])
    else s1
  }

  /** The plain test, the compare-and-swap and the push follow each other; there is room for the push. */
  lemma ReplayEdge(c: Env, s: State, t: nat) returns (s': State)
    requires Inv(c, s) && t < c.threads && s.pcs[t].Scan? && s.pcs[t].pos < s.pcs[t].end
    ensures var dst := c.out.edges[s.pcs[t].pos];
      && dst < c.n && Inv(c, s')
      && s' == AfterEdge(c, s, t, dst, s.pcs[t].pos, s.pcs[t].end)
      && (s.visited[dst] == 0 ==> |s.buffers[t]| < c.n)
  {
    hide Inv, EnvOk;
    InBounds(c, s);
    assert PcOk(c, s.pcs[t]);
    AdvanceInv(c, s, t);
    s' := Advance(c, s, t);
    InBounds(c, s');
    if s'.pcs[t].Cas? {
      AdvanceInv(c, s', t);
      s' := Advance(c, s', t);
      InBounds(c, s');
      if s'.pcs[t].Push? {
        BufferFits(c, s', t);
        AdvanceInv(c, s', t);
        s' := Advance(c, s', t);
      }
    }
  }

  lemma ReplayRowEnd(c: Env, s: State, t: nat) returns (s': State)
    requires Inv(c, s) && t < c.threads && s.pcs[t].Scan? && s.pcs[t].pos == s.pcs[t].end
    ensures Inv(c, s') && s' == s.(pcs := s.pcs[t := Idle])
  {
    AdvanceInv(c, s, t);
    s' := Advance(c, s, t);
  }

  // ---- push ----

  method CompareAndSwap(a: array<nat>, i: nat, expected: nat, desired: nat) returns (ok: bool)
    requires i < a.Length
    modifies a
    ensures ok <==> old(a[i]) == expected
    ensures a[..] == if ok then old(a[..])[i := desired] else old(a[..])
  {
    ok := a[i] == expected;
    if ok { a[i] := desired; }
  }

  /** The body of the edge loop. */
  method Visit(visited: array<nat>, local: ThreadBuffer, dst: nat)
    requires dst < visited.Length && visited != local.buffer && local.Valid()
    requires visited[dst] == 0 ==> local.next < local.capacity
    modifies visited, local`next, local.buffer
    ensures local.Valid()
    ensures visited[..] == if old(visited[dst]) == 0 then old(visited[..])[dst := 1] else old(visited[..])
    ensures local.Contents() ==
            if old(visited[dst]) == 0 then old(local.Contents()) + [dst] else old(local.Contents())
  {
    if visited[dst] == 0 {
      var ok := CompareAndSwap(visited, dst, 0, 1);
      if ok {
        local.Push(dst);
      }
    }
  }

  /** Since `s`, only worker `t` has moved, and it is now at `beg` in its row. */
  ghost predicate Scanning(c: Env, s: State, s': State, t: nat, beg: nat, end: nat) {
    && Inv(c, s') && t < |s.pcs| == |s.buffers| == |s'.buffers|
    && s'.pcs == s.pcs[t := Scan(beg, end)] && s'.pending == s.pending
    && s'.buffers == s.buffers[t := s'.buffers[t]]
  }

  /** A worker that has just taken frontier index `i` stands at the beginning of its row. */
  lemma ScanStart(c: Env, s: State, t: nat, i: nat)
    requires Inv(c, s) && t < c.threads && i < |c.frontier| && s.pcs[t] == RowStart(c, i)
    ensures EnvOk(c) && |s.pcs| == |s.buffers| == c.threads && |s.visited| == c.n
    ensures c.frontier[i] + 1 < |c.out.offsets|
    ensures var beg, end := c.out.offsets[c.frontier[i]], c.out.offsets[c.frontier[i] + 1];
      && beg <= end <= |c.out.edges| && Scanning(c, s, s, t, beg, end)
  {
    assert PcOk(c, s.pcs[t]);
  }

  lemma ScanEdge(c: Env, s: State, s1: State, t: nat, beg: nat, end: nat) returns (s2: State)
    requires Scanning(c, s, s1, t, beg, end) && beg < end && t < c.threads && end <= |c.out.edges|
    ensures Scanning(c, s, s2, t, beg + 1, end)
    ensures var dst := c.out.edges[beg];
      && dst < |s1.visited| && |s1.visited| == c.n
      && (if s1.visited[dst] == 0
          then s2.visited == s1.visited[dst := 1] && s2.buffers[t] == s1.buffers[t] + [dst] && |s1.buffers[t]| < c.n
          else s2.visited == s1.visited && s2.buffers[t] == s1.buffers[t])
  {
    hide Inv, EnvOk;
    InBounds(c, s1);
    s2 := ReplayEdge(c, s1, t);
  }

  /** A worker scans the row of the frontier entry it has taken. */
  method ScanRow(g: Graph, visited: array<nat>, local: ThreadBuffer, src: nat,
                 ghost c: Env, ghost s: State, ghost t: nat, ghost i: nat)
    returns (ghost s': State)
    requires Inv(c, s) && c.out == g.OutCsr() && t < c.threads && i < |c.frontier| && src == c.frontier[i]
    requires s.pcs[t] == RowStart(c, i)
    requires visited[..] == s.visited
    requires local.Valid() && local.capacity == c.n && local.Contents() == s.buffers[t]
    requires {visited, local.buffer} !! {g.outEdges, g.outEdgeOffsets} && visited != local.buffer
    modifies visited, local`next, local.buffer
    ensures Inv(c, s') && visited[..] == s'.visited
    ensures s'.pending == s.pending && s'.pcs == s.pcs[t := Idle]
    ensures local.Valid() && local.Contents() == s'.buffers[t]
    ensures s'.buffers == s.buffers[t := s'.buffers[t]]
  {
    hide Inv, EnvOk, Sized;
    ScanStart(c, s, t, i);
    var beg, end := g.outEdgeOffsets[src], g.outEdgeOffsets[src + 1];
    s' := s;
    while beg < end
      invariant beg <= end <= |c.out.edges| && Scanning(c, s, s', t, beg, end)
      invariant visited[..] == s'.visited
      invariant local.Valid() && local.Contents() == s'.buffers[t]
      invariant c.out == g.OutCsr()
    {
      s' := ScanEdge(c, s, s', t, beg, end);
      Visit(visited, local, g.outEdges[beg]);
      beg := beg + 1;
    }
    s' := ReplayRowEnd(c, s', t);
  }

  /** The buffers are distinct objects with distinct storage, apart from the shared arrays. */
  ghost predicate Apart(bs: seq<ThreadBuffer>, shared: set<object>)
    reads bs`buffer
  {
    && (forall t | 0 <= t < |bs| :: bs[t] !in shared && bs[t].buffer !in shared)
    && (forall t, u | 0 <= t < u < |bs| :: bs[t] != bs[u] && bs[t].buffer != bs[u].buffer)
  }

  ghost predicate Hold(bs: seq<ThreadBuffer>, capacity: nat, contents: seq<seq<nat>>)
    reads bs, set b | b in bs :: b.buffer
  {
    && |bs| == |contents|
    && forall t | 0 <= t < |bs| ::
         bs[t].Valid() && bs[t].capacity == capacity && bs[t].Contents() == contents[t]
  }

  ghost function Empties(n: nat): (r: seq<seq<nat>>)
    ensures |r| == n
  {
    seq(n, _ => [])
  }

  ghost function Storage(bs: seq<ThreadBuffer>): set<object>
    reads bs`buffer
  {
    set b | b in bs :: b.buffer
  }

  /** Worker `t` takes frontier index `i` and scans its row. */
  method ExpandOne(g: Graph, visited: array<nat>, src: nat, local: ThreadBuffer,
                   ghost bs: seq<ThreadBuffer>, ghost t: nat, ghost c: Env, ghost s: State, ghost i: nat)
    returns (ghost s': State)
    requires Inv(c, s) && c.out == g.OutCsr() && c.threads == |bs| && t < |bs| && local == bs[t]
    requires s.pcs[t].Idle? && i in s.pending && src == c.frontier[i]
    requires visited[..] == s.visited && Hold(bs, c.n, s.buffers)
    requires Apart(bs, {g.outEdges, g.outEdgeOffsets, visited})
    requires visited !in {g.outEdges, g.outEdgeOffsets}
    modifies visited, local`next, local.buffer
    ensures Inv(c, s') && visited[..] == s'.visited && Hold(bs, c.n, s'.buffers)
    ensures s'.pending == s.pending - {i} && s'.pcs == s.pcs
  {
    hide Inv, EnvOk;
    InBounds(c, s);
    s' := ReplayTake(c, s, t, i);
    s' := ScanRow(g, visited, local, src, c, s', t, i);
  }

  lemma StartShape(c: Env)
    requires EnvOk(c)
    ensures Inv(c, Start(c)) && Start(c).visited == c.visited0
    ensures Start(c).pcs == seq(c.threads, _ => Idle) && Start(c).buffers == Empties(c.threads)
    ensures forall k :: k in Start(c).pending <==> 0 <= k < |c.frontier|
  {
    StartInv(c);
  }

  lemma ApartAt(bs: seq<ThreadBuffer>, g: Graph, visited: array<nat>, frontier: ThreadBuffer, t: nat)
    requires Apart(bs, {g.outEdges, g.outEdgeOffsets, visited, frontier, frontier.buffer}) && t < |bs|
    ensures Apart(bs, {g.outEdges, g.outEdgeOffsets, visited})
    ensures bs[t] != frontier && bs[t].buffer !in {g.outEdges, g.outEdgeOffsets, visited, frontier.buffer}
    ensures bs[t].buffer in Storage(bs)
  {
  }

  /** The parallel loop of one round; the indices go to the workers in turn. */
  method ExpandFrontier(g: Graph, visited: array<nat>, frontier: ThreadBuffer, bs: seq<ThreadBuffer>, ghost c: Env)
    returns (ghost s: State)
    requires EnvOk(c) && c.out == g.OutCsr() && c.threads == |bs| > 0
    requires visited[..] == c.visited0
    requires frontier.Valid() && frontier.Contents() == c.frontier
    requires Apart(bs, {g.outEdges, g.outEdgeOffsets, visited, frontier, frontier.buffer})
    requires Hold(bs, c.n, Empties(|bs|))
    requires visited !in {g.outEdges, g.outEdgeOffsets, frontier.buffer}
    modifies visited, bs`next, Storage(bs)
    ensures Inv(c, s) && Done(s) && visited[..] == s.visited
    ensures Hold(bs, c.n, s.buffers)
  {
    hide Inv, EnvOk, Start, Apart, Hold;
    s := Start(c);
    StartShape(c);
    var t := 0;
    for i := 0 to frontier.next
      invariant t < |bs| && Inv(c, s) && visited[..] == s.visited && Hold(bs, c.n, s.buffers)
      invariant Apart(bs, {g.outEdges, g.outEdgeOffsets, visited, frontier, frontier.buffer})
      invariant c.out == g.OutCsr() && frontier.Valid() && frontier.Contents() == c.frontier
      invariant forall k :: k in s.pending <==> i <= k < |c.frontier|
      invariant |s.pcs| == c.threads && forall t | 0 <= t < c.threads :: s.pcs[t].Idle?
    {
      ApartAt(bs, g, visited, frontier, t);
      s := ExpandOne(g, visited, frontier.buffer[i], bs[t], bs, t, c, s, i);
      t := if t + 1 == |bs| then 0 else t + 1;
    }
  }

  method TransferOne(frontier: ThreadBuffer, local: ThreadBuffer,
                     ghost bs: seq<ThreadBuffer>, ghost t: nat, ghost contents: seq<seq<nat>>)
    requires frontier.Valid() && Apart(bs, {frontier, frontier.buffer}) && t < |bs| && local == bs[t]
    requires Hold(bs, frontier.capacity, contents) && frontier.next + |contents[t]| <= frontier.capacity
    modifies frontier`next, frontier.buffer, local`next
    ensures frontier.Valid() && frontier.Contents() == old(frontier.Contents()) + contents[t]
    ensures Hold(bs, frontier.capacity, contents[t := []])
  {
    local.Transfer(frontier);
  }

  ghost function Emptied(contents: seq<seq<nat>>, k: nat): (r: seq<seq<nat>>)
    ensures |r| == |contents|
  {
    seq(|contents|, u requires 0 <= u < |contents| => if u < k then [] else contents[u])
  }

  /** `frontier.clear()` and the transfers of all buffers, in order. */
  method CollectFrontier(frontier: ThreadBuffer, bs: seq<ThreadBuffer>, ghost contents: seq<seq<nat>>)
    requires frontier.Valid() && Apart(bs, {frontier, frontier.buffer})
    requires Hold(bs, frontier.capacity, contents) && |Concat(contents)| <= frontier.capacity
    modifies frontier`next, frontier.buffer, bs`next
    ensures frontier.Valid() && frontier.Contents() == Concat(contents)
    ensures Hold(bs, frontier.capacity, Empties(|bs|))
  {
    hide Concat;
    frontier.Clear();
    assert contents[..0] == [];
    ConcatEmpty();
    assert Emptied(contents, 0) == contents;
    for t := 0 to |bs|
      invariant frontier.Valid() && frontier.Contents() == Concat(contents[..t])
      invariant Hold(bs, frontier.capacity, Emptied(contents, t))
      invariant Apart(bs, {frontier, frontier.buffer})
    {
      ConcatPrefix(contents, t);
      TransferOne(frontier, bs[t], bs, t, Emptied(contents, t));
      assert Emptied(contents, t)[t := []] == Emptied(contents, t + 1);
    }
    assert contents[..|bs|] == contents;
    assert Emptied(contents, |bs|) == Empties(|bs|);
  }

  lemma NoBuffers(capacity: nat, shared: set<object>)
    ensures Apart([], shared) && Hold([], capacity, Empties(0))
  {
  }

  lemma AnotherBuffer(bs: seq<ThreadBuffer>, b: ThreadBuffer, capacity: nat, shared: set<object>)
    requires Apart(bs, shared) && Hold(bs, capacity, Empties(|bs|))
    requires b !in shared && b.buffer !in shared && b !in bs && b.buffer !in Storage(bs)
    requires b.Valid() && b.capacity == capacity && b.Contents() == []
    ensures Apart(bs + [b], shared) && Hold(bs + [b], capacity, Empties(|bs| + 1))
    ensures Storage(bs + [b]) == Storage(bs) + {b.buffer}
  {
    assert forall t | 0 <= t < |bs| :: bs[t].buffer in Storage(bs);
  }

  method AllocateBuffers(threads: nat, capacity: nat, ghost shared: set<object>) returns (bs: seq<ThreadBuffer>)
    ensures |bs| == threads && fresh(bs) && fresh(Storage(bs)) && Apart(bs, shared)
    ensures Hold(bs, capacity, Empties(threads))
  {
    hide Apart, Hold;
    bs := [];
    NoBuffers(capacity, shared);
    for t := 0 to threads
      invariant |bs| == t && fresh(bs) && fresh(Storage(bs)) && Apart(bs, shared)
      invariant Hold(bs, capacity, Empties(t))
    {
      var b := new ThreadBuffer(capacity);
      AnotherBuffer(bs, b, capacity, shared);
      bs := bs + [b];
    }
  }

  method SumVisited(visited: array<nat>) returns (v: nat)
    ensures v == Sum(visited[..])
  {
    v := 0;
    for i := 0 to visited.Length
      invariant v == Sum(visited[..i])
    {
      SumPrefix(visited[..], i);
      assert visited[..][..i+1] == visited[..i+1] && visited[..][..i] == visited[..i];
      v := v + visited[i];
    }
    assert visited[..visited.Length] == visited[..];
  }

  /** One iteration of the push loop: expand, join, clear, transfer. */
  method PushIteration(g: Graph, visited: array<nat>, frontier: ThreadBuffer, bs: seq<ThreadBuffer>,
                       ghost inst: Instance, ghost j: nat)
    requires InstanceOk(inst) && inst.out == g.OutCsr() && inst.threads == |bs|
    requires frontier.Valid() && frontier.capacity == inst.n
    requires AtLevel(inst, Head(visited[..], frontier.Contents(), j), j)
    requires Apart(bs, {g.outEdges, g.outEdgeOffsets, visited, frontier, frontier.buffer})
    requires Hold(bs, inst.n, Empties(|bs|))
    requires visited !in {g.outEdges, g.outEdgeOffsets, frontier.buffer}
    requires frontier.buffer !in {g.outEdges, g.outEdgeOffsets}
    modifies visited, frontier`next, frontier.buffer, bs`next, Storage(bs)
    ensures frontier.Valid()
    ensures AtLevel(inst, Head(visited[..], frontier.Contents(), j + 1), j + 1)
    ensures Hold(bs, inst.n, Empties(|bs|))
  {
    hide Inv, EnvOk, Ball, Level, AtLevel;
    ghost var h := Head(visited[..], frontier.Contents(), j);
    LevelEnvOk(inst, h, j, true);
    ghost var c := RoundEnv(inst, h, true);
    ghost var s := ExpandFrontier(g, visited, frontier, bs, c);
    BuffersFit(c, s);
    CollectFrontier(frontier, bs, s.buffers);
    DoneReachesNextLevel(inst, true, h, Head(visited[..], frontier.Contents(), j + 1), s, j, j + 1);
  }

  /** The loop of `bfs_push`, from its first head until the frontier is empty. */
  method PushLoop(g: Graph, visited: array<nat>, frontier: ThreadBuffer, bs: seq<ThreadBuffer>, ghost inst: Instance)
    returns (iterations: nat)
    requires InstanceOk(inst) && inst.out == g.OutCsr() && inst.threads == |bs|
    requires frontier.Valid() && frontier.capacity == inst.n
    requires Head(visited[..], frontier.Contents(), 0) == PushStart(inst)
    requires Apart(bs, {g.outEdges, g.outEdgeOffsets, visited, frontier, frontier.buffer})
    requires Hold(bs, inst.n, Empties(|bs|))
    requires visited !in {g.outEdges, g.outEdgeOffsets, frontier.buffer}
    requires frontier.buffer !in {g.outEdges, g.outEdgeOffsets}
    modifies visited, frontier`next, frontier.buffer, bs`next, Storage(bs)
    ensures iterations > 0 && Eccentricity(inst.es, inst.start, iterations - 1)
    ensures forall v :: v in VisitedSet(visited[..]) <==> Reachable(inst.es, inst.start, v)
    ensures Flags(visited[..], inst.n) && Sum(visited[..]) == |VisitedSet(visited[..])|
  {
    hide Ball, Level, Represents, EnvOk, AtLevel, InstanceOk, VisitedSet, Reachable, Eccentricity;
    iterations := 0;
    StartIsLevelZero(inst);
    LevelZero(inst.es, inst.start);
    LevelEnvOk(inst, Head(visited[..], frontier.Contents(), 0), 0, true);
    while frontier.next != 0
      invariant frontier.Valid() && inst.out == g.OutCsr()
      invariant AtLevel(inst, Head(visited[..], frontier.Contents(), iterations), iterations)
      invariant if iterations == 0 then frontier.next != 0 else Level(inst.es, inst.start, iterations - 1) != {}
      invariant Apart(bs, {g.outEdges, g.outEdgeOffsets, visited, frontier, frontier.buffer})
      invariant Hold(bs, inst.n, Empties(|bs|))
      decreases inst.n - iterations
    {
      LevelEnvOk(inst, Head(visited[..], frontier.Contents(), iterations), iterations, true);
      LevelBound(inst, iterations);
      PushIteration(g, visited, frontier, bs, inst, iterations);
      iterations := iterations + 1;
    }
    SearchEnd(inst, Head(visited[..], frontier.Contents(), iterations), iterations - 1, iterations);
  }

  /** `bfs_push`, started with no vertex visited. */
  method BfsPush(g: Graph, start: nat, visited: array<nat>, threads: nat, ghost es: seq<Edge>)
    returns (iterations: nat, v: nat)
    requires threads > 0 && start < g.nbNodes && g.Shape()
    requires InRange(es, g.nbNodes) && Represents(g.OutCsr(), g.nbNodes, es)
    requires visited.Length == g.nbNodes && forall i | 0 <= i < visited.Length :: visited[i] == 0
    requires visited !in {g.outEdges, g.outEdgeOffsets}
    modifies visited
    ensures forall i | 0 <= i < visited.Length :: visited[i] == if Reachable(es, start, i) then 1 else 0
    ensures v == |VisitedSet(visited[..])|
    ensures iterations > 0 && Eccentricity(es, start, iterations - 1)
  {
    hide Represents, Apart, Hold;
    ghost var inst := Instance(g.nbNodes, threads, es, g.OutCsr(), Csr([], []), start);
    visited[start] := 1;
    var frontier := new ThreadBuffer(g.nbNodes);
    frontier.Push(start);
    var bs := AllocateBuffers(threads, g.nbNodes,
      {g.outEdges, g.outEdgeOffsets, visited, frontier, frontier.buffer});
    assert visited[..] == StartVisited(inst);
    iterations := PushLoop(g, visited, frontier, bs, inst);
    v := SumVisited(visited);
    forall i | 0 <= i < g.nbNodes ensures visited[i] == if Reachable(es, start, i) then 1 else 0 {
      assert i in VisitedSet(visited[..]) <==> visited[i] != 0;
    }
  }

  // ---- pull ----

  ghost predicate Direct(g: Graph, c: PullEnv)
    reads g, g.inEdges, g.inEdgeOffsets
  {
    PullEnvOk(c) && c.inn == g.InCsr()
  }

  /** Does some in-neighbour of `dst` belong to the frontier? The scan stops at the first hit. */
  method HasFrontierParent(g: Graph, inFrontier: array<bool>, dst: nat, ghost c: PullEnv) returns (hit: bool)
    requires Direct(g, c) && inFrontier[..] == c.inFrontier && dst < c.n
    ensures hit <==> dst in PullFringe(c)
  {
    var beg, end := g.inEdgeOffsets[dst], g.inEdgeOffsets[dst + 1];
    while beg < end
      invariant c.inn.offsets[dst] <= beg <= end && NothingSeen(c, dst, beg)
    {
      InEdge(c, dst, beg);
      if inFrontier[g.inEdges[beg]] {
        InFringe(c, dst, beg);
        return true;
      }
      beg := beg + 1;
    }
    NotInFringe(c, dst);
    hit := false;
  }

  /** One pass of the pull loop over all vertices. */
  method PullPassInOrder(g: Graph, visited: array<nat>, inFrontier: array<bool>, next: array<bool>, ghost c: PullEnv)
    returns (cont: bool)
    requires Direct(g, c) && visited[..] == c.visited0 && inFrontier[..] == c.inFrontier
    requires next.Length == c.n && next != inFrontier && forall v | 0 <= v < c.n :: !next[v]
    requires visited !in {g.inEdges, g.inEdgeOffsets}
    modifies visited, next
    ensures Flags(visited[..], c.n)
    ensures VisitedSet(visited[..]) == VisitedSet(c.visited0) + PullFringe(c)
    ensures FlagSet(next[..]) == PullFringe(c) - VisitedSet(c.visited0)
    ensures cont <==> FlagSet(next[..]) != {}
  {
    cont := false;
    for dst := 0 to visited.Length
      invariant Direct(g, c) && inFrontier[..] == c.inFrontier && visited.Length == next.Length == c.n
      invariant forall v | dst <= v < c.n :: visited[v] == c.visited0[v] && !next[v]
      invariant forall v | 0 <= v < dst :: visited[v] <= 1
      invariant forall v | 0 <= v < dst :: visited[v] == 1 <==> c.visited0[v] == 1 || v in PullFringe(c)
      invariant forall v | 0 <= v < dst :: next[v] <==> c.visited0[v] == 0 && v in PullFringe(c)
      invariant cont <==> exists v :: 0 <= v < dst && next[v]
    {
      if visited[dst] == 0 {
        var hit := HasFrontierParent(g, inFrontier, dst, c);
        if hit {
          cont := true;
          visited[dst] := 1;
          next[dst] := true;
        }
      }
    }
    assert forall v | 0 <= v < c.n :: v in FlagSet(next[..]) <==> next[v];
  }

  /** `memset(flags, false, ...)`. */
  method ClearFlags(flags: array<bool>)
    modifies flags
    ensures forall v | 0 <= v < flags.Length :: !flags[v]
  {
    for v := 0 to flags.Length
      invariant forall w | 0 <= w < v :: !flags[w]
    {
      flags[v] := false;
    }
  }

  /** The do-while loop shared by `bfs_pull` and `bfs_pushpull`, started at level `j` of the search. */
  method PullLoop(g: Graph, visited: array<nat>, a: array<bool>, b: array<bool>, ghost inst: Instance, ghost j: nat)
    returns (iterations: nat)
    requires InstanceOk(inst) && InRowsLoaded(inst) && inst.inn == g.InCsr()
    requires PullAtLevel(inst, PullHead(visited[..], a[..], 0, true), j)
    requires b.Length == inst.n && a != b && forall v | 0 <= v < b.Length :: !b[v]
    requires visited !in {g.inEdges, g.inEdgeOffsets}
    modifies visited, a, b
    ensures forall v :: v in VisitedSet(visited[..]) <==> Reachable(inst.es, inst.start, v)
    ensures Flags(visited[..], inst.n)
    ensures iterations > 0 && Level(inst.es, inst.start, j + iterations) == {}
    ensures iterations > 1 ==> Level(inst.es, inst.start, j + iterations - 1) != {}
  {
    hide Ball, Level, Represents;
    var inFrontier, inFrontierNext := a, b;
    iterations := 0;
    while true
      invariant inst.inn == g.InCsr()
      invariant if iterations % 2 == 0 then inFrontier == a && inFrontierNext == b
                else inFrontier == b && inFrontierNext == a
      invariant PullAtLevel(inst, PullHead(visited[..], inFrontier[..], iterations, true), j + iterations)
      invariant inFrontierNext.Length == inst.n && forall v | 0 <= v < inst.n :: !inFrontierNext[v]
      invariant iterations > 0 ==> Level(inst.es, inst.start, j + iterations) != {}
      decreases inst.n + 1 - iterations
    {
      ghost var h := PullHead(visited[..], inFrontier[..], iterations, true);
      if iterations > 0 {
        LevelIndexBound(inst.es, inst.start, j + iterations, inst.n);
      }
      var cont := PullPassInOrder(g, visited, inFrontier, inFrontierNext, PassEnv(inst, h));
      ghost var h' := PullHead(visited[..], inFrontierNext[..], iterations + 1, true);
      FoundIsNextLevel(inst, h, h', j + iterations, j + iterations + 1);
      ClearFlags(inFrontier);
      inFrontier, inFrontierNext := inFrontierNext, inFrontier;
      assert h'.inFrontier == inFrontier[..];
      iterations := iterations + 1;
      if !cont { break; }
    }
    forall v: nat ensures v in VisitedSet(visited[..]) <==> Reachable(inst.es, inst.start, v) {
      FinalBallIsReachable(inst.es, inst.start, j + iterations, v);
    }
  }

  /** `bfs_pull`, started with no vertex visited. */
  method BfsPull(g: Graph, start: nat, visited: array<nat>, ghost es: seq<Edge>) returns (iterations: nat)
    requires start < g.nbNodes && g.Shape() && InRange(es, g.nbNodes)
    requires Represents(g.OutCsr(), g.nbNodes, es) && Represents(g.InCsr(), g.nbNodes, Reverse(es))
    requires visited.Length == g.nbNodes && forall i | 0 <= i < visited.Length :: visited[i] == 0
    requires visited !in {g.outEdges, g.outEdgeOffsets, g.inEdges, g.inEdgeOffsets}
    modifies visited
    ensures forall i | 0 <= i < visited.Length :: visited[i] == if Reachable(es, start, i) then 1 else 0
    ensures iterations > 0 && Eccentricity(es, start, iterations - 1)
  {
    hide Ball, Level, Represents;
    ghost var inst := Instance(g.nbNodes, 1, es, g.OutCsr(), g.InCsr(), start);
    var inFrontier := new bool[g.nbNodes](_ => false);
    var inFrontierNext := new bool[g.nbNodes](_ => false);
    inFrontier[start] := true;
    visited[start] := 1;
    PullStartIsLevelZero(inst);
    LevelZero(es, start);
    assert PullHead(visited[..], inFrontier[..], 0, true) == PullStartHead(inst);
    iterations := PullLoop(g, visited, inFrontier, inFrontierNext, inst, 0);
    LastLevelIsEccentricity(es, start, iterations);
    forall i | 0 <= i < g.nbNodes ensures visited[i] == if Reachable(es, start, i) then 1 else 0 {
      assert i in VisitedSet(visited[..]) <==> visited[i] != 0;
    }
  }
}
