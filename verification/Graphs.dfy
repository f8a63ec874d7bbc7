/**
 * The reference semantics: a graph is its edge list. Everything the parallel code computes is
 * specified against this list: degrees, neighbour lists, walks, distances and reachability.
 */
module Graphs {
  import opened Sums

  datatype Edge = Edge(src: nat, dst: nat)

  ghost predicate InRange(es: seq<Edge>, n: nat) {
    forall i | 0 <= i < |es| :: es[i].src < n && es[i].dst < n
  }

  /** Destinations of the edges leaving `u`, in edge-list order. */
  function Dsts(es: seq<Edge>, u: nat): seq<nat> {
    if |es| == 0 then []
    else
      var m := |es| - 1;
      Dsts(es[..m], u) + if es[m].src == u then [es[m].dst] else []
  }

  function Degree(es: seq<Edge>, u: nat): nat {
    |Dsts(es, u)|
  }

  function Degrees(es: seq<Edge>, n: nat): (r: seq<nat>)
    ensures |r| == n
  {
    seq(n, u requires 0 <= u => Degree(es, u))
  }

  function Reverse(es: seq<Edge>): (r: seq<Edge>)
    ensures |r| == |es|
  {
    seq(|es|, i requires 0 <= i < |es| => Edge(es[i].dst, es[i].src))
  }

  /** Neighbour lists keep the order of the edge list. */
  lemma {:induction false} DstsConcat(a: seq<Edge>, b: seq<Edge>, u: nat)
    ensures Dsts(a + b, u) == Dsts(a, u) + Dsts(b, u)
  {
    if |b| == 0 {
      assert a + b == a;
    } else {
      var m := |b| - 1;
      DstsConcat(a, b[..m], u);
      assert (a + b)[..|a| + m] == a + b[..m];
      assert (a + b)[|a| + m] == b[m];
    }
  }

  lemma DstsOfOne(e: Edge, u: nat)
    ensures Dsts([e], u) == if e.src == u then [e.dst] else []
  {
    assert [e][..0] == [];
  }

  lemma {:induction false} DstsCount(es: seq<Edge>, u: nat, v: nat)
    ensures multiset(Dsts(es, u))[v] == multiset(es)[Edge(u, v)]
  {
    if |es| > 0 {
      var m := |es| - 1;
      DstsCount(es[..m], u, v);
      assert es == es[..m] + [es[m]];
      CountAppend(es[..m], es[m], Edge(u, v));
      CountAppend(Dsts(es[..m], u), es[m].dst, v);
      assert es[m] == Edge(es[m].src, es[m].dst);
      if es[m].src != u {
        assert Dsts(es, u) == Dsts(es[..m], u);
      }
    }
  }

  lemma {:induction false} ReverseCount(es: seq<Edge>, u: nat, v: nat)
    ensures multiset(Reverse(es))[Edge(v, u)] == multiset(es)[Edge(u, v)]
  {
    if |es| > 0 {
      var m := |es| - 1;
      ReverseCount(es[..m], u, v);
      assert es == es[..m] + [es[m]];
      assert Reverse(es) == Reverse(es[..m]) + [Edge(es[m].dst, es[m].src)];
    }
  }

  /** The degrees of all vertices add up to the number of edges. */
  lemma {:induction false} DegreeSum(es: seq<Edge>, n: nat)
    requires forall i | 0 <= i < |es| :: es[i].src < n
    ensures Sum(Degrees(es, n)) == |es|
  {
    if |es| == 0 {
      SumConstant(Degrees(es, n), 0);
    } else {
      var m := |es| - 1;
      DegreeSum(es[..m], n);
      SumUpdate(Degrees(es[..m], n), Degrees(es, n), es[m].src);
    }
  }

  // ---- compressed sparse rows ----

  /** The two arrays of one direction of the `Graph` class: row offsets and concatenated rows. */
  datatype Csr = Csr(offsets: seq<nat>, edges: seq<nat>)

  ghost predicate Offsets(off: seq<nat>, n: nat, total: nat) {
    && |off| == n + 1
    && off[0] == 0 && off[n] == total
    && forall i, j | 0 <= i <= j <= n :: off[i] <= off[j]
  }

  ghost predicate WellFormed(c: Csr, n: nat) {
    Offsets(c.offsets, n, |c.edges|)
  }

  ghost function Segment(c: Csr, n: nat, u: nat): seq<nat>
    requires WellFormed(c, n) && u < n
  {
    c.edges[c.offsets[u]..c.offsets[u+1]]
  }

  /** Row `u` holds exactly the destinations of the edges leaving `u`, with multiplicity. */
  ghost predicate Represents(c: Csr, n: nat, es: seq<Edge>) {
    && WellFormed(c, n)
    && forall u | 0 <= u < n :: multiset(Segment(c, n, u)) == multiset(Dsts(es, u))
  }

  lemma SegmentCount(c: Csr, n: nat, es: seq<Edge>, u: nat, v: nat)
    requires Represents(c, n, es) && u < n
    ensures multiset(Segment(c, n, u))[v] == multiset(es)[Edge(u, v)]
    ensures v in Segment(c, n, u) <==> Edge(u, v) in es
    ensures |Segment(c, n, u)| == Degree(es, u)
  {
    DstsCount(es, u, v);
    assert v in Segment(c, n, u) <==> v in multiset(Segment(c, n, u));
    assert Edge(u, v) in es <==> Edge(u, v) in multiset(es);
    assert |multiset(Segment(c, n, u))| == |multiset(Dsts(es, u))|;
  }

  /** With multiplicities, the in-rows are the transpose of the out-rows. */
  lemma InIsTransposeOfOut(out: Csr, inn: Csr, n: nat, es: seq<Edge>, u: nat, v: nat)
    requires Represents(out, n, es) && Represents(inn, n, Reverse(es)) && u < n && v < n
    ensures multiset(Segment(inn, n, v))[u] == multiset(Segment(out, n, u))[v]
  {
    SegmentCount(out, n, es, u, v);
    SegmentCount(inn, n, Reverse(es), v, u);
    ReverseCount(es, u, v);
  }

  /** The edges listed by the rows of the vertices below `k`. */
  ghost function Expand(c: Csr, n: nat, k: nat): seq<Edge>
    requires WellFormed(c, n) && k <= n
  {
    if k == 0 then [] else Expand(c, n, k - 1) + RowEdges(k - 1, Segment(c, n, k - 1))
  }

  ghost function RowEdges(u: nat, ds: seq<nat>): seq<Edge> {
    seq(|ds|, i requires 0 <= i < |ds| => Edge(u, ds[i]))
  }

  lemma {:induction false} RowCount(u: nat, ds: seq<nat>, e: Edge)
    ensures multiset(RowEdges(u, ds))[e] == if e.src == u then multiset(ds)[e.dst] else 0
  {
    if |ds| > 0 {
      var m := |ds| - 1;
      RowCount(u, ds[..m], e);
      assert ds == ds[..m] + [ds[m]];
      assert RowEdges(u, ds) == RowEdges(u, ds[..m]) + [Edge(u, ds[m])];
    }
  }

  lemma {:induction false} ExpandCount(c: Csr, n: nat, k: nat, e: Edge)
    requires WellFormed(c, n) && k <= n
    ensures multiset(Expand(c, n, k))[e] == if e.src < k then multiset(Segment(c, n, e.src))[e.dst] else 0
  {
    hide Segment, WellFormed, RowEdges;
    if k > 0 {
      ExpandCount(c, n, k - 1, e);
      RowCount(k - 1, Segment(c, n, k - 1), e);
    }
  }

  /** Expanding the rows gives back the edge list, as a multiset. */
  lemma ExpandIsEdgeList(c: Csr, n: nat, es: seq<Edge>)
    requires Represents(c, n, es) && InRange(es, n)
    ensures multiset(Expand(c, n, n)) == multiset(es)
  {
    forall e ensures multiset(Expand(c, n, n))[e] == multiset(es)[e] {
      ExpandCount(c, n, n, e);
      assert e == Edge(e.src, e.dst);
      assert e in multiset(es) ==> e.src < n;
      if e.src < n {
        SegmentCount(c, n, es, e.src, e.dst);
      }
    }
  }

  // ---- walks and distances ----

  ghost predicate IsWalk(es: seq<Edge>, s: nat, v: nat, p: seq<nat>) {
    && |p| > 0 && p[0] == s && p[|p|-1] == v
    && forall i | 0 <= i < |p| - 1 :: Edge(p[i], p[i+1]) in es
  }

  /** There is a walk with exactly `k` edges. */
  ghost predicate WalkOfLength(es: seq<Edge>, s: nat, v: nat, k: nat) {
    exists p :: IsWalk(es, s, v, p) && |p| == k + 1
  }

  ghost predicate Reachable(es: seq<Edge>, s: nat, v: nat) {
    exists p :: IsWalk(es, s, v, p)
  }

  ghost predicate AtDistance(es: seq<Edge>, s: nat, v: nat, k: nat) {
    WalkOfLength(es, s, v, k) && forall j: nat | j < k :: !WalkOfLength(es, s, v, j)
  }

  /** The greatest distance of any reachable vertex. */
  ghost predicate Eccentricity(es: seq<Edge>, s: nat, k: nat) {
    && (exists v :: AtDistance(es, s, v, k))
    && (forall v, j: nat | AtDistance(es, s, v, j) :: j <= k)
  }

  // ---- the same, level by level ----

  ghost function Successors(es: seq<Edge>, vs: set<nat>): set<nat> {
    set e | e in es && e.src in vs :: e.dst
  }

  /** Vertices within distance `k`. */
  ghost function Ball(es: seq<Edge>, s: nat, k: nat): set<nat> {
    if k == 0 then {s} else Ball(es, s, k - 1) + Successors(es, Ball(es, s, k - 1))
  }

  /** Vertices at distance exactly `k`. */
  ghost function Level(es: seq<Edge>, s: nat, k: nat): set<nat> {
    if k == 0 then {s} else Ball(es, s, k) - Ball(es, s, k - 1)
  }

  lemma {:induction false} BallIsShortWalks(es: seq<Edge>, s: nat, k: nat, v: nat)
    ensures v in Ball(es, s, k) <==> exists j: nat :: j <= k && WalkOfLength(es, s, v, j)
  {
    if v in Ball(es, s, k) {
      if k == 0 {
        assert IsWalk(es, s, v, [s]);
        assert WalkOfLength(es, s, v, 0);
      } else if v in Ball(es, s, k - 1) {
        BallIsShortWalks(es, s, k - 1, v);
        var j: nat :| j <= k - 1 && WalkOfLength(es, s, v, j);
      } else {
        var e :| e in es && e.src in Ball(es, s, k - 1) && e.dst == v;
        BallIsShortWalks(es, s, k - 1, e.src);
        var j: nat :| j <= k - 1 && WalkOfLength(es, s, e.src, j);
        var p :| IsWalk(es, s, e.src, p) && |p| == j + 1;
        assert e == Edge(e.src, v);
        assert IsWalk(es, s, v, p + [v]);
        assert WalkOfLength(es, s, v, j + 1);
      }
    }
    if j: nat :| j <= k && WalkOfLength(es, s, v, j) {
      var p :| IsWalk(es, s, v, p) && |p| == j + 1;
      if k > 0 {
        if j == 0 {
          assert WalkOfLength(es, s, v, 0);
          BallIsShortWalks(es, s, k - 1, v);
        } else {
          var u := p[j-1];
          assert IsWalk(es, s, u, p[..j]);
          assert WalkOfLength(es, s, u, j - 1);
          BallIsShortWalks(es, s, k - 1, u);
          assert Edge(u, v) in es;
        }
      }
    }
  }

  /** Level `k` is the set of vertices at distance `k` from `s`. */
  lemma LevelIsDistance(es: seq<Edge>, s: nat, k: nat, v: nat)
    ensures v in Level(es, s, k) <==> AtDistance(es, s, v, k)
  {
    BallIsShortWalks(es, s, k, v);
    if k > 0 {
      BallIsShortWalks(es, s, k - 1, v);
    }
  }

  lemma LevelZero(es: seq<Edge>, s: nat)
    ensures s in Level(es, s, 0)
  {
  }

  /** One round of either search: only the last level has to be expanded. */
  lemma {:induction false} LevelStep(es: seq<Edge>, s: nat, j: nat, k: nat)
    requires k == j + 1
    ensures Level(es, s, j) <= Ball(es, s, j)
    ensures Ball(es, s, k) == Ball(es, s, j) + Successors(es, Level(es, s, j))
    ensures Level(es, s, k) == Successors(es, Level(es, s, j)) - Ball(es, s, j)
    ensures Level(es, s, k) == Ball(es, s, k) - Ball(es, s, j)
  {
    ghost var ball := Ball(es, s, j);
    assert Ball(es, s, k) == ball + Successors(es, ball);
    if j > 0 {
      ghost var inner := Ball(es, s, j - 1);
      assert ball == inner + Successors(es, inner);
      forall v | v in Ball(es, s, k)
        ensures v in ball + Successors(es, Level(es, s, j))
      {
        if v !in ball {
          var e :| e in es && e.src in ball && e.dst == v;
          assert e.src in inner ==> e.dst in Successors(es, inner);
        }
      }
    }
  }

  /** Once a level is empty the ball has stopped growing. */
  lemma {:induction false} EmptyLevelIsFinal(es: seq<Edge>, s: nat, k: nat, j: nat)
    requires Level(es, s, k) == {} && k <= j
    ensures Ball(es, s, j) == Ball(es, s, k) && Level(es, s, j) == {}
  {
    hide Ball, Level;
    if k < j {
      EmptyLevelIsFinal(es, s, k, j - 1);
      LevelStep(es, s, j - 1, j);
      assert Successors(es, {}) == {};
    }
  }

  /** When level `k` is empty, everything reachable has been found. */
  lemma FinalBallIsReachable(es: seq<Edge>, s: nat, k: nat, v: nat)
    requires Level(es, s, k) == {}
    ensures v in Ball(es, s, k) <==> Reachable(es, s, v)
  {
    BallIsShortWalks(es, s, k, v);
    if v in Ball(es, s, k) {
      var j: nat :| j <= k && WalkOfLength(es, s, v, j);
      var p :| IsWalk(es, s, v, p) && |p| == j + 1;
    }
    if p :| IsWalk(es, s, v, p) {
      var j := |p| - 1;
      assert WalkOfLength(es, s, v, j);
      if j > k {
        BallIsShortWalks(es, s, j, v);
        EmptyLevelIsFinal(es, s, k, j);
      }
    }
  }

  /** The index of the last level that is not empty is the eccentricity. */
  lemma LastLevelIsEccentricity(es: seq<Edge>, s: nat, k: nat)
    requires k > 0 && Level(es, s, k - 1) != {} && Level(es, s, k) == {}
    ensures Eccentricity(es, s, k - 1)
  {
    var v :| v in Level(es, s, k - 1);
    LevelIsDistance(es, s, k - 1, v);
    forall v, j: nat | AtDistance(es, s, v, j) ensures j <= k - 1 {
      LevelIsDistance(es, s, j, v);
      if j >= k {
        EmptyLevelIsFinal(es, s, k, j);
      }
    }
  }

  lemma EccentricityUnique(es: seq<Edge>, s: nat, j: nat, k: nat)
    requires Eccentricity(es, s, j) && Eccentricity(es, s, k)
    ensures j == k
  {
    var v :| AtDistance(es, s, v, j);
    var w :| AtDistance(es, s, w, k);
  }

  lemma {:induction false} BallInRange(es: seq<Edge>, s: nat, k: nat, n: nat)
    requires InRange(es, n) && s < n
    ensures Ball(es, s, k) <= UpTo(n)
  {
    if k > 0 {
      BallInRange(es, s, k - 1, n);
    }
  }

  /** Every non-empty level adds a vertex, so a search needs at most as many rounds as there are vertices. */
  lemma {:induction false} BallGrows(es: seq<Edge>, s: nat, k: nat)
    requires Level(es, s, k) != {}
    ensures |Ball(es, s, k)| >= k + 1
  {
    hide Ball, Level;
    if k == 0 {
      BallZero(es, s);
    } else {
      GrowthStep(es, s, k - 1, k);
      BallGrows(es, s, k - 1);
    }
  }

  lemma BallZero(es: seq<Edge>, s: nat)
    ensures |Ball(es, s, 0)| == 1
  {
  }

  lemma GrowthStep(es: seq<Edge>, s: nat, j: nat, k: nat)
    requires k == j + 1 && Level(es, s, k) != {}
    ensures Level(es, s, j) != {} && |Ball(es, s, k)| > |Ball(es, s, j)|
  {
    hide Ball, Level;
    LevelStep(es, s, j, k);
    assert Successors(es, {}) == {};
    var v :| v in Level(es, s, k);
    SubsetCard(Ball(es, s, j) + {v}, Ball(es, s, k));
  }

  lemma LevelIndexBound(es: seq<Edge>, s: nat, k: nat, n: nat)
    requires InRange(es, n) && s < n && Level(es, s, k) != {}
    ensures k < n
  {
    hide Ball, Level;
    BallInRange(es, s, k, n);
    BallGrows(es, s, k);
    SubsetCard(Ball(es, s, k), UpTo(n));
  }

  lemma {:induction false} SubsetCard(a: set<nat>, b: set<nat>)
    requires a <= b
    ensures |a| <= |b|
  {
    if a != {} {
      var x :| x in a;
      SubsetCard(a - {x}, b - {x});
    }
  }
}
