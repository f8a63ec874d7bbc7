/**
 * Loading, searching and relabelling together: from the edge list to the visited vertices, once over the
 * runs of all transition systems involved and once on arrays.
 */
module Pipeline {
  import opened Sums
  import opened Words
  import opened Graphs
  import opened Loader
  import opened PushRounds
  import opened PullPasses
  import opened BfsSearch
  import GraphLoading
  import BfsMethods
  import Reorder
  import Permutations

  /**
   * What loading leaves behind: the degrees are counted by some complete run, turned into running sums,
   * and the edges are stored by some complete run. `outMem` and `inMem` are the arrays as allocated.
   */
  ghost predicate Loaded(n: nat, es: seq<Edge>, symmetric: bool, outMem: seq<nat>, inMem: seq<nat>,
                         counting: seq<Counting>, c: LoadEnv, loading: seq<LoadState>) {
    && InRange(es, n) && |outMem| == |inMem| == |es|
    && CountTrace(n, es, symmetric, counting) && CountDone(counting[|counting|-1])
    && c.n == n && c.es == es && c.symmetric == symmetric
    && c.outOff == PrefixSums(counting[|counting|-1].out)
    && (symmetric ==> c.inOff == PrefixSums(counting[|counting|-1].inn))
    && LoadTrace(c, outMem, inMem, loading) && LoadDone(loading[|loading|-1])
  }

  /** A search on the arrays that were loaded. */
  ghost predicate OnLoaded(g: Instance, n: nat, es: seq<Edge>, c: LoadEnv, loading: seq<LoadState>) {
    && |loading| > 0 && g.n == n && g.es == es && g.threads > 0 && g.start < n
    && g.out == Csr(c.outOff, loading[|loading|-1].out.mem)
    && (c.symmetric ==> g.inn == Csr(c.inOff, loading[|loading|-1].inn.mem))
  }

  lemma ReverseInRange(es: seq<Edge>, n: nat)
    requires InRange(es, n)
    ensures InRange(Reverse(es), n)
  {
  }

  /** Whatever the schedules, the loaded arrays are row layouts, provided the degrees fit the slot counters. */
  lemma LoadedRepresents(g: Instance, n: nat, es: seq<Edge>, symmetric: bool, outMem: seq<nat>, inMem: seq<nat>,
                         counting: seq<Counting>, c: LoadEnv, loading: seq<LoadState>)
    requires Loaded(n, es, symmetric, outMem, inMem, counting, c, loading)
    requires OnLoaded(g, n, es, c, loading) && Fits(n, es)
    ensures InstanceOk(g)
    ensures symmetric && Fits(n, Reverse(es)) ==> InRowsLoaded(g)
  {
    hide Represents, Fits, CountTrace, CountDone, LoadTrace, LoadDone, PrefixSums, RowOffsets;
    ReverseInRange(es, n);
    CountResult(n, es, symmetric, counting);
    PrefixSumsAreRowOffsets(n, es);
    if symmetric {
      PrefixSumsAreRowOffsets(n, Reverse(es));
    }
    LoadResult(c, outMem, inMem, loading);
  }

  /** From the edge list to the visited vertices, for every schedule of counting, storing and searching. */
  lemma LoadThenPush(g: Instance, n: nat, es: seq<Edge>, symmetric: bool, outMem: seq<nat>, inMem: seq<nat>,
                     counting: seq<Counting>, c: LoadEnv, loading: seq<LoadState>, hs: seq<Head>)
    requires Loaded(n, es, symmetric, outMem, inMem, counting, c, loading)
    requires OnLoaded(g, n, es, c, loading) && Fits(n, es)
    requires PushRun(g, true, hs) && hs[|hs|-1].frontier == []
    ensures var h := hs[|hs|-1];
      && (forall v :: v in VisitedSet(h.visited) <==> Reachable(es, g.start, v))
      && Sum(h.visited) == |VisitedSet(h.visited)|
      && h.iterations > 0 && Eccentricity(es, g.start, h.iterations - 1)
  {
    hide InstanceOk, Loaded, Reachable, Eccentricity;
    LoadedRepresents(g, n, es, symmetric, outMem, inMem, counting, c, loading);
    PushSearch(g, true, hs);
  }

  /** On a symmetric graph the pull search, under schedules of its own, ends with the same array. */
  lemma LoadThenPull(g: Instance, n: nat, es: seq<Edge>, outMem: seq<nat>, inMem: seq<nat>,
                     counting: seq<Counting>, c: LoadEnv, loading: seq<LoadState>, hs: seq<Head>, ps: seq<PullHead>)
    requires Loaded(n, es, true, outMem, inMem, counting, c, loading)
    requires OnLoaded(g, n, es, c, loading) && Fits(n, es) && Fits(n, Reverse(es))
    requires PushRun(g, true, hs) && hs[|hs|-1].frontier == []
    requires PullRun(g, PullStartHead(g), ps) && !ps[|ps|-1].cont
    ensures ps[|ps|-1].visited == hs[|hs|-1].visited && ps[|ps|-1].iterations == hs[|hs|-1].iterations
    ensures forall v :: v in VisitedSet(ps[|ps|-1].visited) <==> Reachable(es, g.start, v)
  {
    hide InstanceOk, InRowsLoaded, Loaded, Reachable;
    LoadedRepresents(g, n, es, true, outMem, inMem, counting, c, loading);
    PushAndPullAgree(g, hs, ps);
    PullSearch(g, ps);
  }

  /** Loading can always be completed. */
  lemma CanLoad(n: nat, es: seq<Edge>, symmetric: bool, outMem: seq<nat>, inMem: seq<nat>)
    returns (counting: seq<Counting>, c: LoadEnv, loading: seq<LoadState>)
    requires InRange(es, n) && |outMem| == |inMem| == |es|
    ensures Loaded(n, es, symmetric, outMem, inMem, counting, c, loading)
  {
    hide RowOffsets, PrefixSums, CountDone, LoadDone;
    counting := CompleteCount(n, es, symmetric, [CountStart(n, es)]);
    CountResult(n, es, symmetric, counting);
    var last := counting[|counting|-1];
    c := LoadEnv(n, es, symmetric, PrefixSums(last.out), PrefixSums(last.inn));
    ReverseInRange(es, n);
    PrefixSumsAreRowOffsets(n, es);
    PrefixSumsAreRowOffsets(n, Reverse(es));
    loading := CompleteLoad(c, outMem, inMem, [LoadStart(c, outMem, inMem)]);
  }

  // ---- on arrays ----

  /** Load an edge list and search it from `start`. */
  method LoadAndSearch(es: seq<Edge>, nodes: nat, start: nat, threads: nat)
    returns (visited: array<nat>, iterations: nat, v: nat)
    requires InRange(es, nodes) && Fits(nodes, es) && start < nodes && threads > 0
    ensures fresh(visited) && visited.Length == nodes
    ensures forall i | 0 <= i < nodes :: visited[i] == if Reachable(es, start, i) then 1 else 0
    ensures v == |VisitedSet(visited[..])|
    ensures iterations > 0 && Eccentricity(es, start, iterations - 1)
  {
    hide Represents, Fits, Reachable, Eccentricity;
    var g := GraphLoading.CreateGraph(es, nodes, false);
    visited := new nat[nodes](_ => 0);
    iterations, v := BfsMethods.BfsPush(g, start, visited, threads, es);
  }

  lemma FitsRelabelled(es: seq<Edge>, m: seq<nat>, n: nat)
    requires Reorder.Relabelling(es, m, n) && Fits(n, es)
    ensures Fits(n, Reorder.Relabelled(es, m))
  {
    forall w | 0 <= w < n ensures Degree(Reorder.Relabelled(es, m), w) <= WORD {
      Reorder.DstsRelabelled(es, m, n, Permutations.PositionOf(m, n, w));
    }
  }

  /**
   * Relabel by degree, load, and search from the new id of `start`: the vertices reachable in the original
   * edge list are visited under their new ids, and nothing else.
   */
  method ReorderAndSearch(edges: array<Edge>, nodes: nat, ascending: bool, maintain: bool,
                          schedule: seq<nat>, sorted: seq<nat>, start: nat, threads: nat)
    returns (mapping: array<nat>, visited: array<nat>, iterations: nat)
    requires InRange(edges[..], nodes) && Fits(nodes, edges[..]) && nodes <= WORD && start < nodes && threads > 0
    requires Permutations.Permutes(schedule, edges.Length) && Permutations.Permutes(sorted, nodes)
    requires Reorder.SortedBy(sorted, Reorder.Counters(edges[..], nodes), ascending)
    modifies edges
    ensures visited.Length == nodes && Permutations.Permutes(mapping[..], nodes)
    ensures maintain ==> mapping[0] == 0
    ensures edges[..] == Reorder.Relabelled(old(edges[..]), mapping[..])
    ensures forall i | 0 <= i < edges.Length ::
      && old(edges[..])[i].src < nodes && old(edges[..])[i].dst < nodes
      && edges[i] == Edge(mapping[old(edges[..])[i].src], mapping[old(edges[..])[i].dst])
    ensures var es := old(edges[..]);
      forall u, v | 0 <= u < nodes && 0 <= v < nodes && mapping[u] < mapping[v] && !(maintain && (u == 0 || v == 0)) ::
        if ascending then Degree(es, u) % 0x1_0000_0000 <= Degree(es, v) % 0x1_0000_0000
        else Degree(es, u) % 0x1_0000_0000 >= Degree(es, v) % 0x1_0000_0000
    ensures forall i | 0 <= i < nodes ::
              mapping[i] < nodes && visited[mapping[i]] == if Reachable(old(edges[..]), start, i) then 1 else 0
    ensures iterations > 0 && Eccentricity(old(edges[..]), start, iterations - 1)
  {
    hide Fits, Reachable, Eccentricity, Reorder.SortedBy, Reorder.Counters, Reorder.SortsKeys;
    ghost var es := edges[..];
    mapping := Reorder.SortByDegree(edges, nodes, ascending, maintain, schedule, sorted);
    ghost var m := mapping[..];
    Reorder.RelabelledInRange(es, m, nodes);
    FitsRelabelled(es, m, nodes);
    var v;
    visited, iterations, v := LoadAndSearch(edges[..], nodes, mapping[start], threads);
    forall i | 0 <= i < nodes
      ensures Reachable(es, start, i) <==> Reachable(Reorder.Relabelled(es, m), m[start], m[i])
    {
      Reorder.ReachableRelabelled(es, m, nodes, start, i);
    }
    EccentricityBack(es, m, nodes, start, iterations - 1);
  }

  lemma EccentricityBack(es: seq<Edge>, m: seq<nat>, n: nat, s: nat, k: nat)
    requires Reorder.Relabelling(es, m, n) && s < n
    requires Eccentricity(Reorder.Relabelled(es, m), m[s], k)
    ensures Eccentricity(es, s, k)
  {
    hide Eccentricity;
    Reorder.RelabelledInRange(es, m, n);
    Reorder.RelabelledBack(es, m, n);
    var inverse := Permutations.Inverse(m, n);
    assert inverse[m[s]] == s;
    Reorder.EccentricityRelabelled(Reorder.Relabelled(es, m), inverse, n, m[s], k);
  }
}
