/**
 * The loader of `loader.cpp` as it runs, on the arrays of the `Graph` class. Each parallel loop is
 * run in index order, which is one of the schedules of its transition system; the scatter loop is
 * proved by replaying that schedule.
 */
module GraphLoading {
  import opened Sums
  import opened Graphs
  import opened Loader
  import opened Words

  class Graph {
    var symmetric: bool
    var nbNodes: nat
    var nbEdges: nat
    var outEdges: array<nat>
    var outEdgeOffsets: array<nat>
    var inEdges: array<nat>
    var inEdgeOffsets: array<nat>

    /** The offset arrays start out zeroed, which the counting loops rely on. */
    constructor (nodes: nat, edges: nat, symmetric: bool)
      ensures this.symmetric == symmetric && nbNodes == nodes && nbEdges == edges
      ensures Shape() && fresh({outEdges, outEdgeOffsets, inEdges, inEdgeOffsets})
      ensures forall v | 0 <= v <= nodes :: outEdgeOffsets[v] == 0 && inEdgeOffsets[v] == 0
    {
      this.symmetric := symmetric;
      nbNodes := nodes;
      nbEdges := edges;
      outEdges := new nat[edges];
      outEdgeOffsets := new nat[nodes + 1](_ => 0);
      inEdges := new nat[edges];
      inEdgeOffsets := new nat[nodes + 1](_ => 0);
    }

    ghost predicate Shape()
      reads this
    {
      && outEdges.Length == inEdges.Length == nbEdges
      && outEdgeOffsets.Length == inEdgeOffsets.Length == nbNodes + 1
      && outEdgeOffsets != inEdgeOffsets && outEdges != inEdges
      && {outEdges, inEdges} !! {outEdgeOffsets, inEdgeOffsets}
    }

    ghost function OutCsr(): Csr
      reads this, outEdgeOffsets, outEdges
    {
      Csr(outEdgeOffsets[..], outEdges[..])
    }

    ghost function InCsr(): Csr
      reads this, inEdgeOffsets, inEdges
    {
      Csr(inEdgeOffsets[..], inEdges[..])
    }
  }

  lemma DegreesStep(es: seq<Edge>, n: nat, i: nat)
    requires i < |es| && es[i].src < n
    ensures Degrees(es[..i+1], n) + [0] == Increment(Degrees(es[..i], n) + [0], es[i].src)
  {
    assert es[..i+1][..i] == es[..i];
  }

  method CountUp(a: array<nat>, v: nat)
    requires v < a.Length
    modifies a
    ensures a[..] == Increment(old(a[..]), v)
  {
    a[v] := a[v] + 1;
  }

  /** `count_degree_0_sequential`. */
  method CountDegreeSequential(g: Graph, es: seq<Edge>)
    requires g.Shape() && |es| == g.nbEdges && InRange(es, g.nbNodes)
    requires forall v | 0 <= v <= g.nbNodes :: g.outEdgeOffsets[v] == 0 && g.inEdgeOffsets[v] == 0
    modifies g.outEdgeOffsets, g.inEdgeOffsets
    ensures g.outEdgeOffsets[..] == Degrees(es, g.nbNodes) + [0]
    ensures g.inEdgeOffsets[..] ==
            if g.symmetric then Degrees(Reverse(es), g.nbNodes) + [0] else old(g.inEdgeOffsets[..])
  {
    var n, out, inn := g.nbNodes, g.outEdgeOffsets, g.inEdgeOffsets;
    ghost var rev, in0 := Reverse(es), inn[..];
    assert out[..] == Degrees(es[..0], n) + [0] && in0 == Degrees(rev[..0], n) + [0];
    for i := 0 to |es|
      invariant out[..] == Degrees(es[..i], n) + [0]
      invariant inn[..] == if g.symmetric then Degrees(rev[..i], n) + [0] else in0
    {
      DegreesStep(es, n, i);
      CountUp(out, es[i].src);
      if g.symmetric {
        DegreesStep(rev, n, i);
        CountUp(inn, es[i].dst);
      }
    }
    assert es[..|es|] == es && rev[..|rev|] == rev;
  }

  /** One half of `sum_degree`: the counts are replaced, in place, by their running sums. */
  method SumOneDirection(a: array<nat>, n: nat, total: nat)
    requires a.Length == n + 1 && Sum(a[..n]) == total
    modifies a
    ensures a[..] == PrefixSums(old(a[..n]))
  {
    ghost var d := a[..n];
    var prev := 0;
    for i := 0 to n
      invariant prev == Sum(d[..i])
      invariant forall k | 0 <= k < i :: a[k] == Sum(d[..k])
      invariant forall k | i <= k < n :: a[k] == d[k]
    {
      SumPrefix(d, i);
      var tmp := a[i];
      a[i] := prev;
      prev := prev + tmp;
    }
    assert d[..n] == d;
    assert prev == total;
    a[n] := prev;
  }

  /** `sum_degree`. */
  method SumDegree(g: Graph)
    requires g.Shape() && Sum(g.outEdgeOffsets[..g.nbNodes]) == g.nbEdges
    requires g.symmetric ==> Sum(g.inEdgeOffsets[..g.nbNodes]) == g.nbEdges
    modifies g.outEdgeOffsets, g.inEdgeOffsets
    ensures g.outEdgeOffsets[..] == PrefixSums(old(g.outEdgeOffsets[..g.nbNodes]))
    ensures g.symmetric ==> g.inEdgeOffsets[..] == PrefixSums(old(g.inEdgeOffsets[..g.nbNodes]))
  {
    SumOneDirection(g.outEdgeOffsets, g.nbNodes, g.nbEdges);
    if g.symmetric {
      SumOneDirection(g.inEdgeOffsets, g.nbNodes, g.nbEdges);
    }
  }

  /** The fetch-and-add on a slot counter and the store that follows it. */
  method Scatter(offsets: array<nat>, slots: array<nat>, edges: array<nat>, v: nat, value: nat)
    requires v < slots.Length && v < offsets.Length && offsets[v] + slots[v] < edges.Length
    requires slots != edges && slots != offsets && edges != offsets
    modifies slots, edges
    ensures slots[..] == old(slots[..])[v := Wrap(old(slots[v]) + 1)]
    ensures edges[..] == old(edges[..])[offsets[v] + old(slots[v]) := value]
  {
    var o := slots[v];
    slots[v] := Wrap(o + 1);
    edges[offsets[v] + o] := value;
  }

  /** The arrays of the scatter loop: row offsets, slot counters and edges of one direction. */
  datatype Direction = Direction(offsets: array<nat>, slots: array<nat>, edges: array<nat>)
  {
    ghost predicate Separate() {
      slots != edges && slots != offsets && edges != offsets
    }

    ghost predicate Holds(off: seq<nat>, s: Side)
      reads offsets, slots, edges
    {
      offsets[..] == off && slots[..] == s.cnt && edges[..] == s.mem
    }
  }

  /** The body of the scatter loop for edge `i`, uninterrupted. */
  method ScatterEdge(ghost c: LoadEnv, ghost s: LoadState, out: Direction, inn: Direction, e: Edge, symmetric: bool, i: nat)
    returns (ghost s': LoadState)
    requires LoadInv(c, s) && i < |c.es| && s.pcs[i] == 0 && e == c.es[i] && symmetric == c.symmetric
    requires out.Separate() && inn.Separate()
    requires {out.offsets, out.slots, out.edges} !! {inn.slots, inn.edges}
    requires {inn.offsets, inn.slots, inn.edges} !! {out.slots, out.edges}
    requires out.Holds(c.outOff, s.out) && inn.Holds(c.inOff, s.inn)
    modifies out.slots, out.edges, inn.slots, inn.edges
    ensures LoadInv(c, s') && s'.pcs == s.pcs[i := 4]
    ensures out.Holds(c.outOff, s'.out) && inn.Holds(c.inOff, s'.inn)
  {
    hide SideInv;
    s' := ReplayOut(c, s, i);
    Scatter(out.offsets, out.slots, out.edges, e.src, e.dst);
    if symmetric {
      s' := ReplayIn(c, s', i);
      Scatter(inn.offsets, inn.slots, inn.edges, e.dst, e.src);
    }
  }

  /** `create_edges`. */
  method CreateEdges(g: Graph, es: seq<Edge>)
    requires g.Shape() && |es| == g.nbEdges && InRange(es, g.nbNodes)
    requires RowOffsets(g.outEdgeOffsets[..], g.nbNodes, es)
    requires g.symmetric ==> RowOffsets(g.inEdgeOffsets[..], g.nbNodes, Reverse(es))
    modifies g`outEdges, g`inEdges
    ensures g.Shape() && fresh({g.outEdges, g.inEdges})
    ensures Fits(g.nbNodes, es) ==> Represents(g.OutCsr(), g.nbNodes, es)
    ensures g.symmetric && Fits(g.nbNodes, Reverse(es)) ==> Represents(g.InCsr(), g.nbNodes, Reverse(es))
  {
    hide SideInv, Represents, Fits, Offsets, RowOffsets;
    var n := g.nbNodes;
    var outSlots, inSlots := new nat[n](_ => 0), new nat[n](_ => 0);
    var outEdges, inEdges := new nat[g.nbEdges], new nat[g.nbEdges];
    g.outEdges, g.inEdges := outEdges, inEdges;
    var out, inn := Direction(g.outEdgeOffsets, outSlots, outEdges), Direction(g.inEdgeOffsets, inSlots, inEdges);
    ghost var c := LoadEnv(n, es, g.symmetric, g.outEdgeOffsets[..], g.inEdgeOffsets[..]);
    ghost var s := LoadStart(c, outEdges[..], inEdges[..]);
    LoadStartInv(c, outEdges[..], inEdges[..]);
    for i := 0 to |es|
      invariant LoadInv(c, s)
      invariant forall k | 0 <= k < |es| :: s.pcs[k] == if k < i then 4 else 0
      invariant g.outEdges == outEdges && g.inEdges == inEdges
      invariant out.Holds(c.outOff, s.out) && inn.Holds(c.inOff, s.inn)
    {
      s := ScatterEdge(c, s, out, inn, es[i], g.symmetric, i);
    }
    LoadDoneResult(c, s);
  }

  /** The first two steps of task `i`, uninterrupted. */
  lemma ReplayOut(c: LoadEnv, s: LoadState, i: nat) returns (s': LoadState)
    requires LoadInv(c, s) && i < |c.es| && s.pcs[i] == 0
    ensures LoadInv(c, s') && s'.inn == s.inn && s'.pcs == s.pcs[i := if c.symmetric then 2 else 4]
    ensures var v := c.es[i].src;
      && s'.out.cnt == s.out.cnt[v := Wrap(s.out.cnt[v] + 1)]
      && c.outOff[v] + s.out.cnt[v] < |c.es|
      && s'.out.mem == s.out.mem[c.outOff[v] + s.out.cnt[v] := c.es[i].dst]
  {
    hide SideInv;
    var s1 := LoadState(s.pcs[i := 1], Reserve(c.n, c.es, s.out, i), s.inn);
    LoadStepInv(c, s, s1, i);
    StoreInv(c.outOff, c.n, c.es, s1.out, i);
    s' := LoadState(s1.pcs[i := if c.symmetric then 2 else 4], Store(c.outOff, c.n, c.es, s1.out, i), s1.inn);
    LoadStepInv(c, s1, s', i);
  }

  /** The last two steps of task `i` in a symmetric graph, uninterrupted. */
  lemma ReplayIn(c: LoadEnv, s: LoadState, i: nat) returns (s': LoadState)
    requires LoadInv(c, s) && c.symmetric && i < |c.es| && s.pcs[i] == 2
    ensures LoadInv(c, s') && s'.out == s.out && s'.pcs == s.pcs[i := 4]
    ensures var v := c.es[i].dst;
      && s'.inn.cnt == s.inn.cnt[v := Wrap(s.inn.cnt[v] + 1)]
      && c.inOff[v] + s.inn.cnt[v] < |c.es|
      && s'.inn.mem == s.inn.mem[c.inOff[v] + s.inn.cnt[v] := c.es[i].src]
  {
    hide SideInv;
    var rev := Reverse(c.es);
    var s1 := LoadState(s.pcs[i := 3], s.out, Reserve(c.n, rev, s.inn, i));
    LoadStepInv(c, s, s1, i);
    StoreInv(c.inOff, c.n, rev, s1.inn, i);
    s' := LoadState(s1.pcs[i := 4], s1.out, Store(c.inOff, c.n, rev, s1.inn, i));
    LoadStepInv(c, s1, s', i);
  }

  /**
   * `create_graph` after the file has been read. If no degree exceeds the 32-bit slot counters, the
   * arrays are row layouts of the edge list and, for a symmetric graph, of its reversal.
   */
  method CreateGraph(es: seq<Edge>, nodes: nat, symmetric: bool) returns (g: Graph)
    requires InRange(es, nodes)
    ensures fresh(g) && g.Shape() && g.nbNodes == nodes && g.nbEdges == |es| && g.symmetric == symmetric
    ensures Fits(nodes, es) ==> Represents(g.OutCsr(), nodes, es)
    ensures symmetric && Fits(nodes, Reverse(es)) ==> Represents(g.InCsr(), nodes, Reverse(es))
  {
    g := new Graph(nodes, |es|, symmetric);
    CountDegreeSequential(g, es);
    assert g.outEdgeOffsets[..nodes] == Degrees(es, nodes);
    assert symmetric ==> g.inEdgeOffsets[..nodes] == Degrees(Reverse(es), nodes);
    DegreeSum(es, nodes);
    DegreeSum(Reverse(es), nodes);
    SumDegree(g);
    PrefixSumsAreRowOffsets(nodes, es);
    PrefixSumsAreRowOffsets(nodes, Reverse(es));
    CreateEdges(g, es);
  }
}
