/**
 * `sort_by_degree` of `reorder.cpp`: vertices get new ids in the order of their degrees, and the edge
 * list is rewritten in place. Relabelling commutes with everything computed from the edge list.
 */
module Reorder {
  import opened Sums
  import opened Words
  import opened Graphs
  import opened Permutations
  import BfsSearch
  import PushRounds
  import PageRank

  // ---- the mapping ----

  /** The 32-bit degree counters. */
  function Counters(es: seq<Edge>, n: nat): (r: seq<nat>)
    ensures |r| == n
  {
    seq(n, v requires 0 <= v => Wrap(Degree(es, v)))
  }

  ghost predicate InOrder(a: nat, b: nat, ascending: bool) {
    if ascending then a <= b else a >= b
  }

  /** What `std::sort` promises; entries with equal keys may come in any order. */
  ghost predicate SortedBy(ordered: seq<nat>, keys: seq<nat>, ascending: bool)
    requires Below(ordered, |keys|)
  {
    forall i, j | 0 <= i < j < |ordered| :: InOrder(keys[ordered[i]], keys[ordered[j]], ascending)
  }

  /** Vertex 0 keeps its id when it is maintained. */
  ghost predicate Kept(maintain: bool, v: nat) {
    maintain && v == 0
  }

  /** Smaller new ids go to vertices that come first in the order, apart from a maintained vertex 0. */
  ghost predicate FollowsOrder(mapping: seq<nat>, ordered: seq<nat>, maintain: bool)
    requires Below(ordered, |mapping|)
  {
    forall i, j | 0 <= i < j < |ordered| && !Kept(maintain, ordered[i]) && !Kept(maintain, ordered[j]) ::
      mapping[ordered[i]] < mapping[ordered[j]]
  }

  /** The id given to the vertex at position `i`. */
  ghost function NewId(ordered: seq<nat>, maintain: bool, i: nat): nat
    requires i < |ordered|
  {
    if Kept(maintain, ordered[i]) then 0 else NextId(ordered, maintain, i)
  }

  /** The running count before position `i`. */
  ghost function NextId(ordered: seq<nat>, maintain: bool, i: nat): nat
    requires i <= |ordered|
  {
    if maintain && 0 !in ordered[..i] then i + 1 else i
  }

  lemma NewIdBound(ordered: seq<nat>, maintain: bool, n: nat, i: nat)
    requires Permutes(ordered, n) && i < n
    ensures NewId(ordered, maintain, i) < n
  {
    PermutesOnto(ordered, n, 0);
    var z :| 0 <= z < n && ordered[z] == 0;
    assert z < i ==> ordered[..i][z] == 0;
  }

  lemma NewIdOrder(ordered: seq<nat>, maintain: bool, n: nat, i: nat, j: nat)
    requires Permutes(ordered, n) && i < j < n
    ensures NewId(ordered, maintain, i) != NewId(ordered, maintain, j)
    ensures !Kept(maintain, ordered[i]) && !Kept(maintain, ordered[j]) ==>
              NewId(ordered, maintain, i) < NewId(ordered, maintain, j)
  {
    assert ordered[..j][i] == ordered[i];
    if 0 in ordered[..i] {
      var z :| 0 <= z < i && ordered[..i][z] == 0;
      assert ordered[..j][z] == 0;
    }
  }

  lemma MappingIsBijection(ordered: seq<nat>, mapping: seq<nat>, maintain: bool, n: nat)
    requires Permutes(ordered, n) && |mapping| == n
    requires forall i | 0 <= i < n :: mapping[ordered[i]] == NewId(ordered, maintain, i)
    ensures Permutes(mapping, n) && FollowsOrder(mapping, ordered, maintain)
    ensures maintain && n > 0 ==> mapping[0] == 0
  {
    hide NewId;
    forall u | 0 <= u < n ensures mapping[u] < n {
      NewIdBound(ordered, maintain, n, PositionOf(ordered, n, u));
    }
    forall u, v | 0 <= u < v < n ensures mapping[u] != mapping[v] {
      var i, j := PositionOf(ordered, n, u), PositionOf(ordered, n, v);
      NewIdOrder(ordered, maintain, n, if i < j then i else j, if i < j then j else i);
    }
    forall i, j | 0 <= i < j < n && !Kept(maintain, ordered[i]) && !Kept(maintain, ordered[j])
      ensures mapping[ordered[i]] < mapping[ordered[j]]
    {
      NewIdOrder(ordered, maintain, n, i, j);
    }
    if maintain && n > 0 {
      KeptId(ordered, n, PositionOf(ordered, n, 0));
    }
  }

  lemma KeptId(ordered: seq<nat>, n: nat, z: nat)
    requires z < |ordered| && ordered[z] == 0
    ensures NewId(ordered, true, z) == 0
  {
  }

  /** The loop that turns the order into ids. */
  method AssignIds(ordered: array<nat>, mapping: array<nat>, maintain: bool)
    requires ordered != mapping && mapping.Length == ordered.Length
    requires Permutes(ordered[..], ordered.Length)
    modifies mapping
    ensures Permutes(mapping[..], ordered.Length)
    ensures FollowsOrder(mapping[..], ordered[..], maintain)
    ensures maintain && ordered.Length > 0 ==> mapping[0] == 0
  {
    ghost var ord := ordered[..];
    var count := if maintain then 1 else 0;
    for i := 0 to ordered.Length
      invariant count == NextId(ord, maintain, i)
      invariant forall k | 0 <= k < i :: mapping[ord[k]] == NewId(ord, maintain, k)
    {
      assert ord[..i + 1] == ord[..i] + [ord[i]];
      if maintain && ordered[i] == 0 {
        NotBefore(ord, i);
        mapping[0] := 0;
      } else {
        mapping[ordered[i]] := count;
        count := count + 1;
      }
    }
    MappingIsBijection(ord, mapping[..], maintain, |ord|);
  }

  lemma NotBefore(ordered: seq<nat>, i: nat)
    requires Distinct(ordered) && i < |ordered|
    ensures ordered[i] !in ordered[..i]
  {
  }

  lemma FollowsOrderAt(ordered: seq<nat>, mapping: seq<nat>, maintain: bool, i: nat, j: nat)
    requires Below(ordered, |mapping|) && FollowsOrder(mapping, ordered, maintain) && i < |ordered| && j < |ordered|
    requires !Kept(maintain, ordered[i]) && !Kept(maintain, ordered[j])
    ensures i < j ==> mapping[ordered[i]] < mapping[ordered[j]]
  {
  }

  /** Smaller ids go to smaller (or larger) keys, a maintained vertex 0 excepted. */
  ghost predicate SortsKeys(mapping: seq<nat>, keys: seq<nat>, ascending: bool, maintain: bool)
    requires |mapping| == |keys|
  {
    forall u, v | 0 <= u < |keys| && 0 <= v < |keys| && mapping[u] < mapping[v] ::
      !Kept(maintain, u) && !Kept(maintain, v) ==> InOrder(keys[u], keys[v], ascending)
  }

  lemma MappingSortsKeys(ordered: seq<nat>, mapping: seq<nat>, keys: seq<nat>, ascending: bool, maintain: bool, n: nat)
    requires Permutes(ordered, n) && |mapping| == |keys| == n
    requires FollowsOrder(mapping, ordered, maintain) && SortedBy(ordered, keys, ascending)
    ensures SortsKeys(mapping, keys, ascending, maintain)
  {
    hide FollowsOrder, SortedBy, InOrder, PositionOf;
    forall u, v | 0 <= u < n && 0 <= v < n && mapping[u] < mapping[v] && !Kept(maintain, u) && !Kept(maintain, v)
      ensures InOrder(keys[u], keys[v], ascending)
    {
      var i, j := PositionOf(ordered, n, u), PositionOf(ordered, n, v);
      FollowsOrderAt(ordered, mapping, maintain, j, i);
      SortedAt(ordered, keys, ascending, i, j);
    }
  }

  lemma SortedAt(ordered: seq<nat>, keys: seq<nat>, ascending: bool, i: nat, j: nat)
    requires Below(ordered, |keys|) && SortedBy(ordered, keys, ascending) && i < |ordered| && j < |ordered|
    ensures i < j ==> InOrder(keys[ordered[i]], keys[ordered[j]], ascending)
  {
  }

  // ---- counting ----

  ghost function Sources(es: seq<Edge>): (r: seq<nat>)
    ensures |r| == |es|
  {
    seq(|es|, i requires 0 <= i < |es| => es[i].src)
  }

  lemma {:induction false} DegreeIsSourceCount(es: seq<Edge>, v: nat)
    ensures Degree(es, v) == multiset(Sources(es))[v]
  {
    if |es| > 0 {
      var m := |es| - 1;
      DegreeIsSourceCount(es[..m], v);
      assert Sources(es) == Sources(es[..m]) + [es[m].src];
      CountAppend(Sources(es[..m]), es[m].src, v);
    }
  }

  /** Every edge is counted once, in whatever order the additions happen. */
  lemma ScheduleDoesNotMatter(es: seq<Edge>, schedule: seq<nat>, v: nat)
    requires Permutes(schedule, |es|)
    ensures multiset(Pick(Sources(es), schedule))[v] == Degree(es, v)
  {
    PermutesMultiset(schedule, |es|);
    PickMultiset(Sources(es), schedule, Identity(|es|));
    assert Pick(Sources(es), Identity(|es|)) == Sources(es);
    DegreeIsSourceCount(es, v);
  }

  /** Each counter has been incremented once for every time its vertex was picked. */
  ghost predicate Tallied(counters: seq<nat>, picked: seq<nat>) {
    forall v | 0 <= v < |counters| :: counters[v] == Wrap(multiset(picked)[v])
  }

  lemma TallyStart(counters: seq<nat>, picked: seq<nat>)
    requires forall v | 0 <= v < |counters| :: counters[v] == 0
    ensures Tallied(counters, picked[..0])
  {
  }

  lemma TallyStep(counters: seq<nat>, picked: seq<nat>, k: nat)
    requires k < |picked| && Tallied(counters, picked[..k]) && picked[k] < |counters|
    ensures Tallied(counters[picked[k] := Wrap(counters[picked[k]] + 1)], picked[..k + 1])
  {
    hide Wrap;
    assert picked[..k + 1] == picked[..k] + [picked[k]];
    AddWrapped(multiset(picked[..k])[picked[k]], 1);
  }

  lemma PickedSources(es: seq<Edge>, schedule: seq<nat>)
    requires Permutes(schedule, |es|)
    ensures Below(schedule, |es|) && |schedule| == |es|
    ensures forall k | 0 <= k < |es| :: schedule[k] < |es| && Pick(Sources(es), schedule)[k] == es[schedule[k]].src
  {
  }

  lemma TallyEnd(es: seq<Edge>, schedule: seq<nat>, counters: seq<nat>)
    requires Permutes(schedule, |es|)
    requires Tallied(counters, Pick(Sources(es), schedule)[..|schedule|])
    ensures counters == Counters(es, |counters|)
  {
    hide Wrap;
    var picked := Pick(Sources(es), schedule);
    assert picked[..|schedule|] == picked;
    forall v | 0 <= v < |counters| ensures counters[v] == Counters(es, |counters|)[v] {
      ScheduleDoesNotMatter(es, schedule, v);
    }
  }

  /** The counting loop, its atomic additions in the order `schedule`; the counters start out zeroed. */
  method CountDegrees(edges: array<Edge>, counters: array<nat>, schedule: seq<nat>)
    requires InRange(edges[..], counters.Length) && Permutes(schedule, edges.Length)
    requires forall v | 0 <= v < counters.Length :: counters[v] == 0
    modifies counters
    ensures counters[..] == Counters(edges[..], counters.Length)
    ensures forall v | 0 <= v < counters.Length :: counters[v] == Degree(edges[..], v) % 0x1_0000_0000
  {
    hide Tallied, Wrap, Counters, Sources, Permutes;
    ghost var es := edges[..];
    PickedSources(es, schedule);
    ghost var picked: seq<nat> := Pick(Sources(es), schedule);
    TallyStart(counters[..], picked);
    for k := 0 to |schedule|
      invariant Tallied(counters[..], picked[..k])
    {
      TallyStep(counters[..], picked, k);
      var src := edges[schedule[k]].src;
      counters[src] := Wrap(counters[src] + 1);
    }
    TallyEnd(es, schedule, counters[..]);
    CountersAreRemainders(es, counters.Length);
  }

  lemma CountersAreRemainders(es: seq<Edge>, n: nat)
    ensures forall v | 0 <= v < n :: Counters(es, n)[v] == Degree(es, v) % 0x1_0000_0000
  {
    forall v | 0 <= v < n ensures Counters(es, n)[v] == Degree(es, v) % 0x1_0000_0000 {
      WrapIsCongruent(Degree(es, v), 0);
    }
  }

  /** The 32-bit counters are the degrees exactly when no degree is too large for them. */
  lemma CountersExact(es: seq<Edge>, n: nat)
    ensures Counters(es, n) == Degrees(es, n) <==> forall v | 0 <= v < n :: Degree(es, v) < WORD
  {
    if Counters(es, n) == Degrees(es, n) {
      forall v | 0 <= v < n ensures Degree(es, v) < WORD {
        assert Counters(es, n)[v] == Degrees(es, n)[v];
      }
    }
  }

  /** The order of the ids, written out. */
  lemma SortsByRemainders(mapping: seq<nat>, es: seq<Edge>, n: nat, ascending: bool, maintain: bool)
    requires |mapping| == n && SortsKeys(mapping, Counters(es, n), ascending, maintain)
    ensures forall u, v | 0 <= u < n && 0 <= v < n && mapping[u] < mapping[v] && !(maintain && (u == 0 || v == 0)) ::
      if ascending then Degree(es, u) % 0x1_0000_0000 <= Degree(es, v) % 0x1_0000_0000
      else Degree(es, u) % 0x1_0000_0000 >= Degree(es, v) % 0x1_0000_0000
  {
    CountersAreRemainders(es, n);
    hide Degree;
  }

  // ---- rewriting ----

  function Relabelled(es: seq<Edge>, mapping: seq<nat>): (r: seq<Edge>)
    requires InRange(es, |mapping|)
    ensures |r| == |es|
  {
    seq(|es|, i requires 0 <= i < |es| => Edge(mapping[es[i].src], mapping[es[i].dst]))
  }

  /** The rewriting loop; its tasks touch one edge each. */
  method RewriteEdges(edges: array<Edge>, mapping: array<nat>)
    requires InRange(edges[..], mapping.Length)
    modifies edges
    ensures edges[..] == Relabelled(old(edges[..]), mapping[..])
    ensures forall i | 0 <= i < edges.Length ::
      edges[i] == Edge(mapping[old(edges[..])[i].src], mapping[old(edges[..])[i].dst])
  {
    ghost var es := edges[..];
    for i := 0 to edges.Length
      invariant forall k | 0 <= k < i :: edges[k] == Relabelled(es, mapping[..])[k]
      invariant forall k | i <= k < edges.Length :: edges[k] == es[k]
    {
      edges[i] := Edge(mapping[edges[i].src], edges[i].dst);
      edges[i] := Edge(edges[i].src, mapping[edges[i].dst]);
    }
  }

  /**
   * `sort_by_degree`, without the files. `schedule` is the order of the atomic additions and
   * `sorted` what `std::sort` makes of the identity arrangement.
   */
  method SortByDegree(edges: array<Edge>, nodes: nat, ascending: bool, maintain: bool,
                      schedule: seq<nat>, sorted: seq<nat>)
    returns (mapping: array<nat>)
    requires InRange(edges[..], nodes) && nodes <= WORD
    requires Permutes(schedule, edges.Length)
    requires Permutes(sorted, nodes) && SortedBy(sorted, Counters(edges[..], nodes), ascending)
    modifies edges
    ensures fresh(mapping) && Permutes(mapping[..], nodes)
    ensures maintain && nodes > 0 ==> mapping[0] == 0
    ensures edges[..] == Relabelled(old(edges[..]), mapping[..])
    ensures forall i | 0 <= i < edges.Length ::
      && old(edges[..])[i].src < nodes && old(edges[..])[i].dst < nodes
      && edges[i] == Edge(mapping[old(edges[..])[i].src], mapping[old(edges[..])[i].dst])
    ensures SortsKeys(mapping[..], Counters(old(edges[..]), nodes), ascending, maintain)
    ensures var es := old(edges[..]);
      forall u, v | 0 <= u < nodes && 0 <= v < nodes && mapping[u] < mapping[v] && !(maintain && (u == 0 || v == 0)) ::
        if ascending then Degree(es, u) % 0x1_0000_0000 <= Degree(es, v) % 0x1_0000_0000
        else Degree(es, u) % 0x1_0000_0000 >= Degree(es, v) % 0x1_0000_0000
  {
    hide Counters, SortedBy, FollowsOrder, SortsKeys, Permutes;
    ghost var es := edges[..];
    var counters := new nat[nodes](_ => 0);
    CountDegrees(edges, counters, schedule);
    var ordered := new nat[nodes](i => i);
    assert |sorted| == nodes by { PermutesLength(sorted, nodes); }
    forall i | 0 <= i < nodes {
      ordered[i] := sorted[i];
    }
    assert ordered[..] == sorted;
    mapping := new nat[nodes];
    AssignIds(ordered, mapping, maintain);
    MappingSortsKeys(sorted, mapping[..], Counters(es, nodes), ascending, maintain, nodes);
    SortsByRemainders(mapping[..], es, nodes, ascending, maintain);
    RewriteEdges(edges, mapping);
  }

  // ---- relabelling commutes ----

  ghost predicate Relabelling(es: seq<Edge>, m: seq<nat>, n: nat) {
    InRange(es, n) && Permutes(m, n)
  }

  lemma RelabelledInRange(es: seq<Edge>, m: seq<nat>, n: nat)
    requires Relabelling(es, m, n)
    ensures InRange(Relabelled(es, m), n)
  {
  }

  lemma {:induction false} DstsBelow(es: seq<Edge>, n: nat, u: nat)
    requires InRange(es, n)
    ensures Below(Dsts(es, u), n)
  {
    if |es| > 0 {
      DstsBelow(es[..|es|-1], n, u);
    }
  }

  /** Neighbour lists are renamed entry by entry, so every vertex keeps its out-degree. */
  lemma {:induction false} DstsRelabelled(es: seq<Edge>, m: seq<nat>, n: nat, u: nat)
    requires Relabelling(es, m, n) && u < n
    ensures Below(Dsts(es, u), n) && Dsts(Relabelled(es, m), m[u]) == Pick(m, Dsts(es, u))
    ensures Degree(Relabelled(es, m), m[u]) == Degree(es, u)
  {
    DstsBelow(es, n, u);
    if |es| > 0 {
      var k := |es| - 1;
      DstsRelabelled(es[..k], m, n, u);
      assert Relabelled(es, m)[..k] == Relabelled(es[..k], m);
      assert es[k].src != u ==> m[es[k].src] != m[u];
    }
  }

  /** Renaming back gives the original edge list. */
  lemma RelabelledBack(es: seq<Edge>, m: seq<nat>, n: nat)
    requires Relabelling(es, m, n)
    ensures InRange(Relabelled(es, m), n)
    ensures Relabelled(Relabelled(es, m), Inverse(m, n)) == es
  {
  }

  lemma {:induction false} WalkBelow(es: seq<Edge>, n: nat, s: nat, v: nat, p: seq<nat>)
    requires InRange(es, n) && IsWalk(es, s, v, p) && s < n
    ensures Below(p, n)
  {
    forall i | 0 <= i < |p| ensures p[i] < n {
      if i > 0 {
        assert Edge(p[i-1], p[i-1+1]) in es;
      }
    }
  }

  lemma WalkRelabelled(es: seq<Edge>, m: seq<nat>, n: nat, s: nat, v: nat, p: seq<nat>)
    requires Relabelling(es, m, n) && IsWalk(es, s, v, p) && s < n
    ensures Below(p, n) && v < n && IsWalk(Relabelled(es, m), m[s], m[v], Pick(m, p))
  {
    WalkBelow(es, n, s, v, p);
    var q := Pick(m, p);
    forall i | 0 <= i < |q| - 1 ensures Edge(q[i], q[i+1]) in Relabelled(es, m) {
      var j :| 0 <= j < |es| && es[j] == Edge(p[i], p[i+1]);
      assert Relabelled(es, m)[j] == Edge(q[i], q[i+1]);
    }
  }

  lemma WalkLengthForward(es: seq<Edge>, m: seq<nat>, n: nat, s: nat, v: nat, k: nat)
    requires Relabelling(es, m, n) && s < n && WalkOfLength(es, s, v, k)
    ensures v < n && WalkOfLength(Relabelled(es, m), m[s], m[v], k)
  {
    var p :| IsWalk(es, s, v, p) && |p| == k + 1;
    WalkRelabelled(es, m, n, s, v, p);
  }

  lemma WalkLengthRelabelled(es: seq<Edge>, m: seq<nat>, n: nat, s: nat, v: nat, k: nat)
    requires Relabelling(es, m, n) && s < n && v < n
    ensures WalkOfLength(es, s, v, k) <==> WalkOfLength(Relabelled(es, m), m[s], m[v], k)
  {
    hide WalkOfLength;
    var es', inv := Relabelled(es, m), Inverse(m, n);
    RelabelledBack(es, m, n);
    assert inv[m[s]] == s && inv[m[v]] == v;
    if WalkOfLength(es, s, v, k) {
      WalkLengthForward(es, m, n, s, v, k);
    }
    if WalkOfLength(es', m[s], m[v], k) {
      WalkLengthForward(es', inv, n, m[s], m[v], k);
    }
  }

  /** Reachability in the rewritten graph is the image of reachability in the original. */
  lemma ReachableRelabelled(es: seq<Edge>, m: seq<nat>, n: nat, s: nat, v: nat)
    requires Relabelling(es, m, n) && s < n && v < n
    ensures Reachable(es, s, v) <==> Reachable(Relabelled(es, m), m[s], m[v])
  {
    var es', inv := Relabelled(es, m), Inverse(m, n);
    RelabelledBack(es, m, n);
    assert inv[m[s]] == s && inv[m[v]] == v;
    if p :| IsWalk(es, s, v, p) {
      WalkRelabelled(es, m, n, s, v, p);
    }
    if p :| IsWalk(es', m[s], m[v], p) {
      WalkRelabelled(es', inv, n, m[s], m[v], p);
    }
  }

  /** Distances in the rewritten graph are those of the original. */
  lemma DistanceRelabelled(es: seq<Edge>, m: seq<nat>, n: nat, s: nat, v: nat, k: nat)
    requires Relabelling(es, m, n) && s < n && v < n
    ensures AtDistance(es, s, v, k) <==> AtDistance(Relabelled(es, m), m[s], m[v], k)
  {
    hide WalkOfLength;
    forall j: nat ensures WalkOfLength(es, s, v, j) <==> WalkOfLength(Relabelled(es, m), m[s], m[v], j) {
      WalkLengthRelabelled(es, m, n, s, v, j);
    }
  }

  lemma AtDistanceBelow(es: seq<Edge>, n: nat, s: nat, v: nat, k: nat)
    requires InRange(es, n) && s < n && AtDistance(es, s, v, k)
    ensures v < n
  {
    var p :| IsWalk(es, s, v, p) && |p| == k + 1;
    WalkBelow(es, n, s, v, p);
    assert p[|p| - 1] == v;
  }

  lemma EccentricityRelabelled(es: seq<Edge>, m: seq<nat>, n: nat, s: nat, k: nat)
    requires Relabelling(es, m, n) && s < n && Eccentricity(es, s, k)
    ensures Eccentricity(Relabelled(es, m), m[s], k)
  {
    hide AtDistance, Inverse;
    var es' := Relabelled(es, m);
    RelabelledBack(es, m, n);
    var v :| AtDistance(es, s, v, k);
    AtDistanceBelow(es, n, s, v, k);
    DistanceRelabelled(es, m, n, s, v, k);
    forall w, j: nat | AtDistance(es', m[s], w, j) ensures j <= k {
      AtDistanceBelow(es', n, m[s], w, j);
      var u := PositionOf(m, n, w);
      DistanceRelabelled(es, m, n, s, u, j);
    }
  }

  /**
   * Two complete push searches, the second on the relabelled graph from the relabelled start, with
   * different thread counts and schedules: they visit corresponding vertices, equally many, in equally
   * many rounds. With `maintain` both may start at vertex 0.
   */
  lemma SearchRelabelled(g: BfsSearch.Instance, hs: seq<BfsSearch.Head>,
                         g': BfsSearch.Instance, hs': seq<BfsSearch.Head>, plainTest: bool, m: seq<nat>)
    requires BfsSearch.InstanceOk(g) && BfsSearch.PushRun(g, plainTest, hs) && hs[|hs|-1].frontier == []
    requires BfsSearch.InstanceOk(g') && BfsSearch.PushRun(g', plainTest, hs') && hs'[|hs'|-1].frontier == []
    requires Relabelling(g.es, m, g.n) && g'.n == g.n && g'.es == Relabelled(g.es, m) && g'.start == m[g.start]
    ensures var h, h' := hs[|hs|-1], hs'[|hs'|-1];
      && (forall v | 0 <= v < g.n ::
            v in PushRounds.VisitedSet(h.visited) <==> m[v] in PushRounds.VisitedSet(h'.visited))
      && Sum(h.visited) == Sum(h'.visited)
      && h.iterations == h'.iterations
  {
    hide BfsSearch.InstanceOk, Reachable, Eccentricity;
    assert g.start < g.n by { StartBelow(g); }
    BfsSearch.PushSearch(g, plainTest, hs);
    BfsSearch.PushSearch(g', plainTest, hs');
    var h, h' := hs[|hs|-1], hs'[|hs'|-1];
    var a, b := PushRounds.VisitedSet(h.visited), PushRounds.VisitedSet(h'.visited);
    RelabelledInRange(g.es, m, g.n);
    forall v | v in a ensures v < g.n { ReachableBelow(g.es, g.n, g.start, v); }
    forall v | v in b ensures v < g.n { ReachableBelow(g'.es, g.n, g'.start, v); }
    forall v | 0 <= v < g.n ensures v in a <==> m[v] in b {
      ReachableRelabelled(g.es, m, g.n, g.start, v);
    }
    ImageCard(m, g.n, a, b);
    EccentricityRelabelled(g.es, m, g.n, g.start, h.iterations - 1);
    EccentricityUnique(g'.es, g'.start, h.iterations - 1, h'.iterations - 1);
  }

  lemma StartBelow(g: BfsSearch.Instance)
    requires BfsSearch.InstanceOk(g)
    ensures g.start < g.n
  {
  }

  lemma ReachableBelow(es: seq<Edge>, n: nat, s: nat, v: nat)
    requires InRange(es, n) && s < n && Reachable(es, s, v)
    ensures v < n
  {
    var p :| IsWalk(es, s, v, p);
    WalkBelow(es, n, s, v, p);
    assert p[|p| - 1] == v;
  }

  ghost predicate SameRanks(m: seq<nat>, a: seq<nat>, b: seq<nat>)
    requires |a| == |b| == |m| && Below(m, |m|)
  {
    forall v | 0 <= v < |m| :: b[m[v]] == a[v]
  }

  lemma {:induction false} GatherRelabelled(es: seq<Edge>, m: seq<nat>, n: nat, a: seq<nat>, b: seq<nat>, v: nat)
    requires Relabelling(es, m, n) && |a| == |b| == n && SameRanks(m, a, b) && v < n
    ensures PageRank.Gather(Relabelled(es, m), b, m[v]) == PageRank.Gather(es, a, v)
  {
    if |es| > 0 {
      var k := |es| - 1;
      GatherRelabelled(es[..k], m, n, a, b, v);
      assert Relabelled(es, m)[..k] == Relabelled(es[..k], m);
      assert es[k].dst != v ==> m[es[k].dst] != m[v];
    }
  }

  /** After any number of iterations every vertex has the same value under its new id. */
  lemma {:induction false} RanksRelabelled(es: seq<Edge>, m: seq<nat>, n: nat, a: seq<nat>, b: seq<nat>, k: nat)
    requires Relabelling(es, m, n) && |a| == |b| == n && SameRanks(m, a, b)
    ensures SameRanks(m, PageRank.RanksFrom(es, n, a, k), PageRank.RanksFrom(Relabelled(es, m), n, b, k))
  {
    if k > 0 {
      RanksRelabelled(es, m, n, a, b, k - 1);
      var a', b' := PageRank.RanksFrom(es, n, a, k - 1), PageRank.RanksFrom(Relabelled(es, m), n, b, k - 1);
      forall v | 0 <= v < n
        ensures PageRank.Iterate(Relabelled(es, m), n, b')[m[v]] == PageRank.Iterate(es, n, a')[v]
      {
        GatherRelabelled(es, m, n, a', b', v);
      }
    }
  }

  /**
   * Two runs of `pr_push`, the second on the relabelled graph with corresponding initial values, with row
   * layouts and schedules of their own: after each iteration the values correspond.
   */
  lemma PageRankRelabelled(es: seq<Edge>, m: seq<nat>, n: nat, a: seq<nat>, b: seq<nat>,
                           out: Csr, hs: seq<PageRank.Head>, out': Csr, hs': seq<PageRank.Head>, k: nat)
    requires Relabelling(es, m, n) && |a| == |b| == n && SameRanks(m, a, b)
    requires PageRank.Run(n, es, out, a, hs) && PageRank.Run(n, Relabelled(es, m), out', b, hs')
    requires k < |hs| && k < |hs'|
    ensures |hs[k].prev| == |hs'[k].prev| == n && SameRanks(m, hs[k].prev, hs'[k].prev)
  {
    hide SameRanks, PageRank.Run, PageRank.RanksFrom;
    RelabelledInRange(es, m, n);
    PageRank.RunResult(n, es, out, a, hs, k);
    PageRank.RunResult(n, Relabelled(es, m), out', b, hs', k);
    RanksRelabelled(es, m, n, a, b, k);
  }

  /** ... in particular from the value 4 everywhere, as `pr_hub` starts them. */
  lemma PageRankFromFourRelabelled(es: seq<Edge>, m: seq<nat>, n: nat,
                                   out: Csr, hs: seq<PageRank.Head>, out': Csr, hs': seq<PageRank.Head>, k: nat)
    requires Relabelling(es, m, n)
    requires PageRank.Run(n, es, out, seq(n, _ => 4), hs)
    requires PageRank.Run(n, Relabelled(es, m), out', seq(n, _ => 4), hs')
    requires k < |hs| && k < |hs'|
    ensures |hs[k].prev| == |hs'[k].prev| == n && SameRanks(m, hs[k].prev, hs'[k].prev)
    ensures hs[k].prev == PageRank.Ranks(es, n, k)
  {
    var a: seq<nat>, b: seq<nat> := hs[0].prev, hs'[0].prev;
    PageRankRelabelled(es, m, n, a, b, out, hs, out', hs', k);
    PageRank.RunResult(n, es, out, seq(n, _ => 4), hs, k);
  }
}
