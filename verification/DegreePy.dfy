/**
 * The relabelling of `reorder/degree.py`: a dict of neighbour lists, a stable sort of its items, ids
 * for its keys, and ids for the remaining vertices as the edge list is rewritten.
 */
module DegreePy {
  import opened Sums
  import opened Graphs
  import opened Permutations

  // ---- grouping ----

  /** The edges as they are grouped: by source, or by destination for the in-degree. */
  function Keyed(es: seq<Edge>, indegree: bool): seq<Edge> {
    if indegree then Reverse(es) else es
  }

  /** The keys of the dict, in the order in which they were first met. */
  function Keys(es: seq<Edge>): seq<nat> {
    if |es| == 0 then []
    else
      var ks, v := Keys(es[..|es|-1]), es[|es|-1].src;
      if v in ks then ks else ks + [v]
  }

  lemma {:induction false} KeysAreSources(es: seq<Edge>)
    ensures Distinct(Keys(es))
    ensures forall v :: v in Keys(es) <==> exists i :: 0 <= i < |es| && es[i].src == v
  {
    if |es| > 0 {
      var m := |es| - 1;
      KeysAreSources(es[..m]);
      forall v ensures v in Keys(es) <==> exists i :: 0 <= i < |es| && es[i].src == v {
        if i :| 0 <= i < |es| && es[i].src == v {
          assert i < m ==> es[..m][i].src == v;
        }
        assert es[m].src == v || (v in Keys(es) <==> v in Keys(es[..m]));
      }
    }
  }

  lemma {:induction false} KeysGrow(es: seq<Edge>, i: nat)
    requires i <= |es|
    ensures Keys(es[..i]) <= Keys(es)
  {
    if i < |es| {
      var m := |es| - 1;
      KeysGrow(es[..m], i);
      assert es[..m][..i] == es[..i];
    } else {
      assert es[..i] == es;
    }
  }

  /** Keys are listed in the order of their first occurrence. */
  lemma KeysInOrder(es: seq<Edge>, i: nat, p: nat, q: nat)
    requires i < |es| && p < |Keys(es)| && q < |Keys(es)| && Keys(es)[p] == es[i].src != Keys(es)[q]
    requires forall k | 0 <= k < i :: es[k].src != Keys(es)[q]
    ensures p < q
  {
    var start := es[..i + 1];
    KeysGrow(es, i + 1);
    KeysAreSources(es);
    KeysAreSources(start);
    assert start[i].src == es[i].src;
    var j :| 0 <= j < |Keys(start)| && Keys(start)[j] == es[i].src;
    assert Keys(es)[j] == Keys(start)[j];
    PrefixEntry(Keys(start), Keys(es), q);
  }

  lemma PrefixEntry(a: seq<nat>, b: seq<nat>, q: nat)
    requires a <= b && q < |b|
    ensures q < |a| ==> b[q] in a
  {
    if q < |a| {
      assert a[q] == b[q];
    }
  }

  /** `byNode` lists the neighbours of every key; all other vertices have none. */
  ghost predicate Grouped(es: seq<Edge>, keys: seq<nat>, byNode: map<nat, seq<nat>>) {
    && keys == Keys(es)
    && (forall v :: v in byNode <==> v in keys)
    && (forall v :: Dsts(es, v) == if v in byNode then byNode[v] else [])
  }

  lemma KeyedAt(edgeList: seq<Edge>, indegree: bool)
    ensures var es := Keyed(edgeList, indegree);
      && |es| == |edgeList|
      && forall i | 0 <= i < |es| ::
           es[i] == if indegree then Edge(edgeList[i].dst, edgeList[i].src) else edgeList[i]
  {
  }

  lemma GroupStart(es: seq<Edge>)
    ensures Grouped(es[..0], [], map[])
  {
  }

  lemma GroupStep(es: seq<Edge>, i: nat, keys: seq<nat>, byNode: map<nat, seq<nat>>)
    requires i < |es| && Grouped(es[..i], keys, byNode)
    ensures var e := es[i];
      if e.src in byNode then
        Grouped(es[..i + 1], keys, byNode[e.src := byNode[e.src] + [e.dst]])
      else
        Grouped(es[..i + 1], keys + [e.src], byNode[e.src := []][e.src := [] + [e.dst]])
  {
    assert es[..i + 1][..i] == es[..i];
  }

  lemma GroupEnd(es: seq<Edge>, keys: seq<nat>, byNode: map<nat, seq<nat>>)
    requires Grouped(es, keys, byNode)
    ensures keys == Keys(es) && forall v :: v in byNode <==> v in keys
    ensures forall v | v in byNode :: byNode[v] == Dsts(es, v)
    ensures forall v | v !in byNode :: Degree(es, v) == 0
  {
  }

  /** The loop that fills `edges_by_node`. */
  method GroupEdges(edgeList: seq<Edge>, indegree: bool) returns (keys: seq<nat>, byNode: map<nat, seq<nat>>)
    ensures keys == Keys(Keyed(edgeList, indegree))
    ensures forall v :: v in byNode <==> v in keys
    ensures forall v | v in byNode :: byNode[v] == Dsts(Keyed(edgeList, indegree), v)
    ensures forall v | v !in byNode :: Degree(Keyed(edgeList, indegree), v) == 0
  {
    hide *;
    keys, byNode := [], map[];
    ghost var es := Keyed(edgeList, indegree);
    KeyedAt(edgeList, indegree);
    GroupStart(es);
    for i := 0 to |edgeList|
      invariant Grouped(es[..i], keys, byNode)
    {
      var e := if indegree then Edge(edgeList[i].dst, edgeList[i].src) else edgeList[i];
      GroupStep(es, i, keys, byNode);
      if e.src !in byNode {
        keys, byNode := keys + [e.src], byNode[e.src := []];
      }
      byNode := byNode[e.src := byNode[e.src] + [e.dst]];
    }
    assert es[..|es|] == es;
    GroupEnd(es, keys, byNode);
  }

  // ---- sorting ----

  /** Whether the item at position `p` of the unsorted list belongs in front of the one at `q`. */
  ghost predicate Precedes(lens: seq<nat>, ascending: bool, p: nat, q: nat)
    requires p < |lens| && q < |lens|
  {
    (if ascending then lens[p] < lens[q] else lens[p] > lens[q]) || (lens[p] == lens[q] && p < q)
  }

  /** What `list.sort` promises, in both directions: items with equal keys keep their order. */
  ghost predicate StablySorted(perm: seq<nat>, lens: seq<nat>, ascending: bool) {
    && Permutes(perm, |lens|)
    && forall i, j | 0 <= i < j < |perm| :: Precedes(lens, ascending, perm[i], perm[j])
  }

  /** The result of the sort is determined by its input, ties included. */
  lemma {:induction false} StableSortIsUnique(a: seq<nat>, b: seq<nat>, lens: seq<nat>, ascending: bool, i: nat)
    requires StablySorted(a, lens, ascending) && StablySorted(b, lens, ascending) && i <= |lens|
    ensures a[..i] == b[..i]
    ensures i == |lens| ==> a == b
  {
    if i > 0 {
      var k := i - 1;
      StableSortIsUnique(a, b, lens, ascending, k);
      var p, q := PositionOf(b, |lens|, a[k]), PositionOf(a, |lens|, b[k]);
      SamePrefix(a, b, k, p);
      SamePrefix(a, b, k, q);
      assert a[..i] == a[..k] + [a[k]] && b[..i] == b[..k] + [b[k]];
    }
  }

  lemma SamePrefix(a: seq<nat>, b: seq<nat>, k: nat, p: nat)
    requires k <= |a| && k <= |b| && a[..k] == b[..k]
    ensures p < k ==> a[p] == b[p]
  {
    if p < k {
      assert a[p] == a[..k][p] && b[p] == b[..k][p];
    }
  }

  // ---- numbering ----

  /** The ids in use are all different and are exactly the numbers from `lo` up to `count`. */
  ghost predicate Numbering(mapping: map<nat, nat>, lo: nat, count: nat) {
    && (forall u, v | u in mapping && v in mapping && u != v :: mapping[u] != mapping[v])
    && (forall v | v in mapping :: lo <= mapping[v] < count)
    && |mapping| + lo == count
  }

  /** The ids at the time vertex 0 has (not) been kept. */
  ghost function LeastId(maintain: bool, zeroIsKey: bool): nat {
    if maintain && !zeroIsKey then 1 else 0
  }

  lemma NumberNext(mapping: map<nat, nat>, lo: nat, count: nat, v: nat)
    requires Numbering(mapping, lo, count) && v !in mapping
    ensures Numbering(mapping[v := count], lo, count + 1)
  {
    assert mapping[v := count].Keys == mapping.Keys + {v};
    assert |mapping[v := count]| == |mapping| + 1;
  }

  lemma NumberZero(mapping: map<nat, nat>, count: nat)
    requires Numbering(mapping, 1, count) && 0 !in mapping
    ensures Numbering(mapping[0 := 0], 0, count)
  {
    assert mapping[0 := 0].Keys == mapping.Keys + {0};
    assert |mapping[0 := 0]| == |mapping| + 1;
  }

  /** Nothing is skipped: every number in the range is somebody's id. */
  lemma NumberingIsOnto(mapping: map<nat, nat>, lo: nat, count: nat)
    requires Numbering(mapping, lo, count)
    ensures forall x :: x in mapping.Values <==> lo <= x < count
  {
    var ids, all: set<nat> := mapping.Values, UpTo(count) - UpTo(lo);
    ValuesCard(mapping, mapping.Keys, ids);
    RangeCard(lo, count);
    FullSet(ids, all);
  }

  lemma RangeCard(lo: nat, count: nat)
    requires lo <= count
    ensures |UpTo(count) - UpTo(lo)| == count - lo
  {
    assert UpTo(count) == (UpTo(count) - UpTo(lo)) + UpTo(lo);
  }

  lemma FullSet(a: set<nat>, b: set<nat>)
    requires a <= b && |a| == |b|
    ensures a == b
  {
    if b - a != {} {
      var x :| x in b - a;
      SubsetCard(a + {x}, b);
    } else {
      assert b == a + (b - a);
    }
  }

  lemma {:induction false} ValuesCard(mapping: map<nat, nat>, ks: set<nat>, vs: set<nat>)
    requires ks <= mapping.Keys
    requires forall u, v | u in mapping && v in mapping && u != v :: mapping[u] != mapping[v]
    requires forall x :: x in vs <==> exists u :: u in ks && mapping[u] == x
    ensures |vs| == |ks|
  {
    if ks == {} {
      assert vs == {};
    } else {
      var u :| u in ks;
      ValuesCard(mapping, ks - {u}, vs - {mapping[u]});
    }
  }

  /** Ids of the keys follow the sorted order, apart from a kept 0. */
  ghost predicate FollowsOrder(mapping: map<nat, nat>, ordered: seq<nat>, maintain: bool) {
    forall i, j | 0 <= i < j < |ordered| && !(maintain && ordered[i] == 0) && !(maintain && ordered[j] == 0) ::
      ordered[i] in mapping && ordered[j] in mapping && mapping[ordered[i]] < mapping[ordered[j]]
  }

  /** What holds when the keys `done` have their ids. */
  ghost predicate KeysNumbered(done: seq<nat>, maintain: bool, mapping: map<nat, nat>, count: nat) {
    && (forall v :: v in mapping <==> v in done)
    && Numbering(mapping, LeastId(maintain, 0 in done), count)
    && (maintain && 0 in done ==> mapping[0] == 0)
    && FollowsOrder(mapping, done, maintain)
  }

  lemma KeysStart(ordered: seq<nat>, maintain: bool)
    ensures KeysNumbered(ordered[..0], maintain, map[], if maintain then 1 else 0)
  {
  }

  lemma NewKey(ordered: seq<nat>, i: nat)
    requires Distinct(ordered) && i < |ordered|
    ensures ordered[..i + 1] == ordered[..i] + [ordered[i]] && ordered[i] !in ordered[..i]
    ensures forall v :: v in ordered[..i + 1] <==> v in ordered[..i] || v == ordered[i]
  {
  }

  lemma FollowsMore(mapping: map<nat, nat>, done: seq<nat>, maintain: bool, v: nat, id: nat)
    requires FollowsOrder(mapping, done, maintain) && v !in done && v !in mapping
    requires forall u | u in done :: u in mapping && mapping[u] < id
    ensures FollowsOrder(mapping[v := id], done + [v], maintain)
  {
    var more := done + [v];
    forall i, j | 0 <= i < j < |more| && !(maintain && more[i] == 0) && !(maintain && more[j] == 0)
      ensures more[i] in mapping[v := id] && more[j] in mapping[v := id]
      ensures mapping[v := id][more[i]] < mapping[v := id][more[j]]
    {
      assert more[i] == done[i] && done[i] in done;
      assert j < |done| ==> more[j] == done[j] && done[j] in done;
    }
  }

  lemma FollowsZero(mapping: map<nat, nat>, done: seq<nat>)
    requires FollowsOrder(mapping, done, true) && 0 !in done && 0 !in mapping
    requires forall u | u in done :: u in mapping
    ensures FollowsOrder(mapping[0 := 0], done + [0], true)
  {
    var more := done + [0];
    forall i, j | 0 <= i < j < |more| && more[i] != 0 && more[j] != 0
      ensures more[i] in mapping[0 := 0] && more[j] in mapping[0 := 0]
      ensures mapping[0 := 0][more[i]] < mapping[0 := 0][more[j]]
    {
      assert more[i] == done[i] && more[j] == done[j];
    }
  }

  lemma BelowCount(mapping: map<nat, nat>, lo: nat, count: nat)
    requires Numbering(mapping, lo, count)
    ensures forall v | v in mapping :: mapping[v] < count
  {
  }

  lemma KeepZero(ordered: seq<nat>, i: nat, mapping: map<nat, nat>, count: nat)
    requires Distinct(ordered) && i < |ordered| && ordered[i] == 0
    requires KeysNumbered(ordered[..i], true, mapping, count)
    ensures KeysNumbered(ordered[..i + 1], true, mapping[0 := 0], count)
  {
    hide FollowsOrder, Numbering, Distinct;
    NewKey(ordered, i);
    NumberZero(mapping, count);
    FollowsZero(mapping, ordered[..i]);
  }

  lemma NumberKey(ordered: seq<nat>, i: nat, maintain: bool, mapping: map<nat, nat>, count: nat)
    requires Distinct(ordered) && i < |ordered| && !(maintain && ordered[i] == 0)
    requires KeysNumbered(ordered[..i], maintain, mapping, count)
    ensures KeysNumbered(ordered[..i + 1], maintain, mapping[ordered[i] := count], count + 1)
  {
    hide FollowsOrder, Numbering, Distinct;
    NewKey(ordered, i);
    var lo := LeastId(maintain, 0 in ordered[..i]);
    NumberNext(mapping, lo, count, ordered[i]);
    BelowCount(mapping, lo, count);
    FollowsMore(mapping, ordered[..i], maintain, ordered[i], count);
  }

  lemma KeysEnd(ordered: seq<nat>, maintain: bool, mapping: map<nat, nat>, count: nat)
    requires KeysNumbered(ordered, maintain, mapping, count)
    ensures forall v :: v in mapping <==> v in ordered
    ensures Numbering(mapping, LeastId(maintain, 0 in ordered), count)
    ensures maintain && 0 in ordered ==> mapping[0] == 0
    ensures FollowsOrder(mapping, ordered, maintain)
  {
  }

  /** The first pass: ids for the sorted keys. */
  method NumberKeys(ordered: seq<nat>, maintain: bool) returns (mapping: map<nat, nat>, count: nat)
    requires Distinct(ordered)
    ensures forall v :: v in mapping <==> v in ordered
    ensures Numbering(mapping, LeastId(maintain, 0 in ordered), count)
    ensures maintain && 0 in ordered ==> mapping[0] == 0
    ensures FollowsOrder(mapping, ordered, maintain)
  {
    hide *;
    mapping := map[];
    count := if maintain then 1 else 0;
    KeysStart(ordered, maintain);
    for i := 0 to |ordered|
      invariant KeysNumbered(ordered[..i], maintain, mapping, count)
    {
      var vertex := ordered[i];
      if maintain && vertex == 0 {
        KeepZero(ordered, i, mapping, count);
        mapping := mapping[vertex := vertex];
      } else {
        NumberKey(ordered, i, maintain, mapping, count);
        mapping := mapping[vertex := count];
        count := count + 1;
      }
    }
    assert ordered[..|ordered|] == ordered;
    KeysEnd(ordered, maintain, mapping, count);
  }

  // ---- rewriting ----

  ghost predicate Extends(before: map<nat, nat>, after: map<nat, nat>, count: nat) {
    && (forall v | v in before :: v in after && after[v] == before[v])
    && (forall v | v in after && v !in before :: after[v] >= count)
  }

  /** An id for a vertex that has none yet. */
  method NumberVertex(mapping: map<nat, nat>, count: nat, v: nat, ghost lo: nat)
    returns (mapping': map<nat, nat>, count': nat)
    requires Numbering(mapping, lo, count)
    ensures Numbering(mapping', lo, count') && count <= count'
    ensures mapping'.Keys == mapping.Keys + {v} && Extends(mapping, mapping', count)
  {
    mapping', count' := mapping, count;
    if v !in mapping {
      NumberNext(mapping, lo, count, v);
      mapping', count' := mapping[v := count], count + 1;
    }
  }

  ghost function Endpoints(es: seq<Edge>): set<nat> {
    (set e | e in es :: e.src) + (set e | e in es :: e.dst)
  }

  /** Edge `e` under its new ids. */
  ghost predicate Renamed(mapping: map<nat, nat>, e: Edge, e': Edge) {
    e.src in mapping && e.dst in mapping && e' == Edge(mapping[e.src], mapping[e.dst])
  }

  lemma EndpointsStep(es: seq<Edge>, i: nat)
    requires i < |es|
    ensures Endpoints(es[..i + 1]) == Endpoints(es[..i]) + {es[i].src} + {es[i].dst}
  {
    assert es[..i + 1] == es[..i] + [es[i]];
  }

  lemma LaterIsGreater(before: map<nat, nat>, after: map<nat, nat>, count: nat, lo: nat, u: nat)
    requires Numbering(before, lo, count) && Extends(before, after, count) && u in before
    ensures u in after && forall v | v in after && v !in before :: after[u] < after[v]
  {
  }

  lemma ExtendsTwice(m0: map<nat, nat>, c0: nat, m1: map<nat, nat>, c1: nat, m2: map<nat, nat>)
    requires Extends(m0, m1, c0) && Extends(m1, m2, c1) && c0 <= c1
    ensures Extends(m0, m2, c0)
  {
  }

  /**
   * Apart from the keys, vertices have their ids in the order in which they occur first, the source of an
   * edge before its destination: what occurs up to edge `i` has a smaller id than what does not.
   */
  ghost predicate MetInOrder(es: seq<Edge>, keyed: map<nat, nat>, mapping: map<nat, nat>) {
    forall i, v | 0 <= i < |es| :: MetAt(es, keyed, mapping, i, v)
  }

  ghost predicate MetAt(es: seq<Edge>, keyed: map<nat, nat>, mapping: map<nat, nat>, i: nat, v: nat)
    requires i < |es|
  {
    v in mapping && v !in keyed && v != es[i].src && NotBefore(es, i, v) ==>
      && es[i].src in mapping && es[i].dst in mapping
      && mapping[es[i].src] < mapping[v] && (v != es[i].dst ==> mapping[es[i].dst] < mapping[v])
  }

  ghost predicate NotBefore(es: seq<Edge>, i: nat, v: nat)
    requires i <= |es|
  {
    forall k | 0 <= k < i :: es[k].src != v && es[k].dst != v
  }

  /** Both endpoints of an edge, source first. */
  method NumberEdge(mapping: map<nat, nat>, count: nat, e: Edge, ghost lo: nat)
    returns (mapping': map<nat, nat>, count': nat, e': Edge)
    requires Numbering(mapping, lo, count)
    ensures Numbering(mapping', lo, count') && count <= count'
    ensures mapping'.Keys == mapping.Keys + {e.src} + {e.dst} && Extends(mapping, mapping', count)
    ensures Renamed(mapping', e, e')
    ensures e.src != e.dst && e.dst !in mapping ==> mapping'[e.src] < mapping'[e.dst]
  {
    hide Numbering, Extends;
    mapping', count' := NumberVertex(mapping, count, e.src, lo);
    ghost var between, d := mapping', count';
    mapping', count' := NumberVertex(mapping', count', e.dst, lo);
    ExtendsTwice(mapping, count, between, d, mapping');
    LaterIsGreater(between, mapping', d, lo, e.src);
    e' := Edge(mapping'[e.src], mapping'[e.dst]);
  }

  /** What holds when the edges `es` have been rewritten. */
  ghost predicate Rewritten(es: seq<Edge>, keyed: map<nat, nat>, first: nat,
                            mapping: map<nat, nat>, count: nat, output: seq<Edge>) {
    && mapping.Keys == keyed.Keys + Endpoints(es)
    && Extends(keyed, mapping, first) && first <= count && MetInOrder(es, keyed, mapping)
    && |output| == |es| && forall k | 0 <= k < |es| :: Renamed(mapping, es[k], output[k])
  }

  lemma RewriteStart(es: seq<Edge>, keyed: map<nat, nat>, first: nat)
    ensures Rewritten(es[..0], keyed, first, keyed, first, [])
  {
    assert Endpoints(es[..0]) == {};
    assert keyed.Keys == keyed.Keys + {};
  }

  lemma RewriteStep(es: seq<Edge>, i: nat, keyed: map<nat, nat>, first: nat, m0: map<nat, nat>, c0: nat,
                    output: seq<Edge>, m1: map<nat, nat>, c1: nat, e: Edge)
    requires i < |es| && Rewritten(es[..i], keyed, first, m0, c0, output)
    requires forall v | v in m0 :: m0[v] < c0
    requires es[i].src in m1 && es[i].dst in m1
    requires es[i].src != es[i].dst && es[i].dst !in m0 ==> m1[es[i].src] < m1[es[i].dst]
    requires m1.Keys == m0.Keys + {es[i].src} + {es[i].dst} && Extends(m0, m1, c0) && c0 <= c1
    requires Renamed(m1, es[i], e)
    ensures Rewritten(es[..i + 1], keyed, first, m1, c1, output + [e])
  {
    hide Endpoints, Extends, MetInOrder;
    EndpointsStep(es, i);
    ExtendsTwice(keyed, first, m0, c0, m1);
    MetStep(es, i, keyed, m0, c0, m1);
    assert m1.Keys == keyed.Keys + Endpoints(es[..i + 1]);
    forall k | 0 <= k < i + 1 ensures Renamed(m1, es[..i + 1][k], (output + [e])[k]) {
      if k < i {
        RenamedKept(m0, m1, c0, es[..i][k], output[k]);
      }
    }
  }

  lemma EndpointsHave(es: seq<Edge>, j: nat)
    requires j < |es|
    ensures es[j].src in Endpoints(es) && es[j].dst in Endpoints(es)
  {
    assert es[j] in es;
  }

  lemma MetEarlier(es: seq<Edge>, i: nat, keyed: map<nat, nat>, m0: map<nat, nat>, c0: nat, m1: map<nat, nat>,
                   j: nat, v: nat)
    requires j < i < |es| && MetAt(es[..i], keyed, m0, j, v) && Extends(m0, m1, c0)
    requires es[j].src in m0 && es[j].dst in m0 && m0[es[j].src] < c0 && m0[es[j].dst] < c0
    ensures MetAt(es[..i + 1], keyed, m1, j, v)
  {
    SameBefore(es, i, j, v);
  }

  lemma SameBefore(es: seq<Edge>, i: nat, j: nat, v: nat)
    requires j < i < |es|
    ensures es[..i][j] == es[..i + 1][j] == es[j]
    ensures NotBefore(es[..i + 1], j, v) ==> NotBefore(es[..i], j, v)
  {
    if NotBefore(es[..i + 1], j, v) {
      forall k | 0 <= k < j ensures es[..i][k].src != v && es[..i][k].dst != v {
        assert es[..i][k] == es[..i + 1][k];
      }
    }
  }

  lemma MetLast(es: seq<Edge>, i: nat, keyed: map<nat, nat>, m0: map<nat, nat>, m1: map<nat, nat>, v: nat)
    requires i < |es| && m0.Keys == keyed.Keys + Endpoints(es[..i])
    requires m1.Keys == m0.Keys + {es[i].src} + {es[i].dst} && es[i].src in m1 && es[i].dst in m1
    requires es[i].src != es[i].dst && es[i].dst !in m0 ==> m1[es[i].src] < m1[es[i].dst]
    ensures MetAt(es[..i + 1], keyed, m1, i, v)
  {
    hide Endpoints;
    assert es[..i + 1][i] == es[i];
    if NotBefore(es[..i + 1], i, v) {
      NotYetMet(es, i, v);
      assert v in m0 <==> v in keyed;
      assert v in m1 <==> v in m0 || v == es[i].src || v == es[i].dst;
    }
  }

  lemma MetStep(es: seq<Edge>, i: nat, keyed: map<nat, nat>, m0: map<nat, nat>, c0: nat, m1: map<nat, nat>)
    requires i < |es| && MetInOrder(es[..i], keyed, m0) && Extends(m0, m1, c0)
    requires m0.Keys == keyed.Keys + Endpoints(es[..i]) && m1.Keys == m0.Keys + {es[i].src} + {es[i].dst}
    requires forall v | v in m0 :: m0[v] < c0
    requires es[i].src in m1 && es[i].dst in m1
    requires es[i].src != es[i].dst && es[i].dst !in m0 ==> m1[es[i].src] < m1[es[i].dst]
    ensures MetInOrder(es[..i + 1], keyed, m1)
  {
    hide Endpoints, Extends, MetAt;
    var more := es[..i + 1];
    forall j, v | 0 <= j < |more| ensures MetAt(more, keyed, m1, j, v) {
      if j < i {
        assert MetAt(es[..i], keyed, m0, j, v);
        EndpointsHave(es[..i], j);
        InKeys(m0, keyed.Keys, Endpoints(es[..i]), es[..i][j].src);
        InKeys(m0, keyed.Keys, Endpoints(es[..i]), es[..i][j].dst);
        MetEarlier(es, i, keyed, m0, c0, m1, j, v);
      } else {
        MetLast(es, i, keyed, m0, m1, v);
      }
    }
  }

  lemma InKeys(m: map<nat, nat>, a: set<nat>, b: set<nat>, v: nat)
    requires m.Keys == a + b && v in b
    ensures v in m
  {
  }

  lemma NotYetMet(es: seq<Edge>, i: nat, v: nat)
    requires i < |es| && NotBefore(es[..i + 1], i, v)
    ensures v !in Endpoints(es[..i])
  {
    assert forall k | 0 <= k < i :: es[..i][k] == es[..i + 1][k];
  }

  lemma RewriteEnd(es: seq<Edge>, keyed: map<nat, nat>, first: nat, mapping: map<nat, nat>, count: nat,
                   output: seq<Edge>)
    requires Rewritten(es, keyed, first, mapping, count, output)
    ensures mapping.Keys == keyed.Keys + Endpoints(es) && Extends(keyed, mapping, first)
    ensures MetInOrder(es, keyed, mapping)
    ensures |output| == |es| && forall k | 0 <= k < |es| :: Renamed(mapping, es[k], output[k])
  {
  }

  lemma RenamedKept(before: map<nat, nat>, after: map<nat, nat>, count: nat, e: Edge, e': Edge)
    requires Extends(before, after, count) && Renamed(before, e, e')
    ensures Renamed(after, e, e')
  {
  }

  /** The second pass: the edge list is rewritten, and vertices that were no keys get the next ids. */
  method RewriteEdges(edgeList: seq<Edge>, keyed: map<nat, nat>, first: nat, ghost lo: nat)
    returns (mapping: map<nat, nat>, output: seq<Edge>, count: nat)
    requires Numbering(keyed, lo, first)
    ensures mapping.Keys == keyed.Keys + Endpoints(edgeList)
    ensures Numbering(mapping, lo, count) && Extends(keyed, mapping, first)
    ensures |output| == |edgeList|
    ensures forall i | 0 <= i < |edgeList| :: Renamed(mapping, edgeList[i], output[i])
    ensures MetInOrder(edgeList, keyed, mapping)
    ensures forall i, v | 0 <= i < |edgeList| && v in mapping && v !in keyed && v != edgeList[i].src &&
                          (forall k | 0 <= k < i :: edgeList[k].src != v && edgeList[k].dst != v) ::
              && edgeList[i].src in mapping && edgeList[i].dst in mapping
              && mapping[edgeList[i].src] < mapping[v]
              && (v != edgeList[i].dst ==> mapping[edgeList[i].dst] < mapping[v])
  {
    hide *;
    mapping, output, count := keyed, [], first;
    RewriteStart(edgeList, keyed, first);
    for i := 0 to |edgeList|
      invariant Numbering(mapping, lo, count) && |output| == i
      invariant Rewritten(edgeList[..i], keyed, first, mapping, count, output)
    {
      ghost var m0, c0 := mapping, count;
      var e;
      BelowCount(m0, lo, c0);
      mapping, count, e := NumberEdge(mapping, count, edgeList[i], lo);
      RewriteStep(edgeList, i, keyed, first, m0, c0, output, mapping, count, e);
      output := output + [e];
    }
    assert edgeList[..|edgeList|] == edgeList;
    RewriteEnd(edgeList, keyed, first, mapping, count, output);
    MetInOrderMeans(edgeList, keyed, mapping);
  }

  lemma MetInOrderMeans(es: seq<Edge>, keyed: map<nat, nat>, mapping: map<nat, nat>)
    requires MetInOrder(es, keyed, mapping)
    ensures forall i, v | 0 <= i < |es| && v in mapping && v !in keyed && v != es[i].src &&
                          (forall k | 0 <= k < i :: es[k].src != v && es[k].dst != v) ::
              && es[i].src in mapping && es[i].dst in mapping
              && mapping[es[i].src] < mapping[v] && (v != es[i].dst ==> mapping[es[i].dst] < mapping[v])
  {
    hide MetAt;
    forall i, v | 0 <= i < |es| && v in mapping && v !in keyed && v != es[i].src &&
                  (forall k | 0 <= k < i :: es[k].src != v && es[k].dst != v)
      ensures es[i].src in mapping && es[i].dst in mapping
      ensures mapping[es[i].src] < mapping[v] && (v != es[i].dst ==> mapping[es[i].dst] < mapping[v])
    {
      assert MetAt(es, keyed, mapping, i, v);
      MetAtMeans(es, keyed, mapping, i, v);
    }
  }

  lemma MetAtMeans(es: seq<Edge>, keyed: map<nat, nat>, mapping: map<nat, nat>, i: nat, v: nat)
    requires i < |es| && MetAt(es, keyed, mapping, i, v)
    requires v in mapping && v !in keyed && v != es[i].src
    requires forall k | 0 <= k < i :: es[k].src != v && es[k].dst != v
    ensures es[i].src in mapping && es[i].dst in mapping
    ensures mapping[es[i].src] < mapping[v] && (v != es[i].dst ==> mapping[es[i].dst] < mapping[v])
  {
    assert NotBefore(es, i, v);
  }

  // ---- the whole script ----

  ghost function KeyLengths(es: seq<Edge>, keys: seq<nat>): (r: seq<nat>)
    ensures |r| == |keys|
  {
    seq(|keys|, i requires 0 <= i < |keys| => Degree(es, keys[i]))
  }

  ghost predicate DegreeOrder(a: nat, b: nat, ascending: bool) {
    if ascending then a <= b else a >= b
  }

  /** Every vertex that occurs has an id of its own. */
  ghost predicate OwnIds(edgeList: seq<Edge>, mapping: map<nat, nat>) {
    && mapping.Keys == Endpoints(edgeList)
    && forall u, v | u in mapping && v in mapping && u != v :: mapping[u] != mapping[v]
  }

  /** Which ids are used: with `-m` they start at 1 unless vertex 0 is a key, and then it keeps its 0. */
  ghost predicate IdsUsed(edgeList: seq<Edge>, maintain: bool, zeroIsKey: bool, mapping: map<nat, nat>) {
    && var k := |Endpoints(edgeList)|;
    && (forall x :: x in mapping.Values <==> if maintain && !zeroIsKey then 1 <= x <= k else 0 <= x < k)
    && (maintain && 0 in mapping ==> (mapping[0] == 0 <==> zeroIsKey))
  }

  /** Ids of keys are sorted by degree, apart from a kept 0, and all other vertices come after them. */
  ghost predicate DegreesInOrder(es: seq<Edge>, maintain: bool, ascending: bool, mapping: map<nat, nat>) {
    && (forall u | u in Keys(es) :: u in mapping)
    && (forall u, v | u in Keys(es) && v in Keys(es) && mapping[u] < mapping[v] && !(maintain && (u == 0 || v == 0)) ::
          DegreeOrder(Degree(es, u), Degree(es, v), ascending))
    && (forall u, v | u in Keys(es) && v in mapping && v !in Keys(es) :: mapping[u] < mapping[v])
  }

  /** Keys of equal degree keep the order of their first occurrence, apart from a kept 0. */
  ghost predicate TiesInOrder(es: seq<Edge>, maintain: bool, mapping: map<nat, nat>) {
    forall i, v | 0 <= i < |es| :: TieAt(es, maintain, mapping, i, v)
  }

  ghost predicate TieAt(es: seq<Edge>, maintain: bool, mapping: map<nat, nat>, i: nat, v: nat)
    requires i < |es|
  {
    var u := es[i].src;
    v in Keys(es) && u != v && (forall k | 0 <= k < i :: es[k].src != v) && Degree(es, u) == Degree(es, v) &&
    !(maintain && (u == 0 || v == 0)) ==>
      u in mapping && v in mapping && mapping[u] < mapping[v]
  }

  /** The other vertices have their ids in the order of their first occurrence. */
  ghost predicate OthersInOrder(edgeList: seq<Edge>, es: seq<Edge>, mapping: map<nat, nat>) {
    forall i, v | 0 <= i < |edgeList| :: OtherAt(edgeList, es, mapping, i, v)
  }

  ghost predicate OtherAt(edgeList: seq<Edge>, es: seq<Edge>, mapping: map<nat, nat>, i: nat, v: nat)
    requires i < |edgeList|
  {
    var e := edgeList[i];
    v in mapping && v !in Keys(es) && v != e.src && NotBefore(edgeList, i, v) ==>
      && e.src in mapping && e.dst in mapping
      && mapping[e.src] < mapping[v] && (v != e.dst ==> mapping[e.dst] < mapping[v])
  }

  /** Everything the script promises about the ids. */
  ghost predicate Outcome(edgeList: seq<Edge>, maintain: bool, ascending: bool, indegree: bool, mapping: map<nat, nat>) {
    var es := Keyed(edgeList, indegree);
    && OwnIds(edgeList, mapping)
    && IdsUsed(edgeList, maintain, 0 in Keys(es), mapping)
    && DegreesInOrder(es, maintain, ascending, mapping)
    && TiesInOrder(es, maintain, mapping)
    && OthersInOrder(edgeList, es, mapping)
  }

  /** The passes of the script, one after the other; `perm` is the arrangement the sort produces. */
  method Passes(edgeList: seq<Edge>, maintain: bool, ascending: bool, indegree: bool, perm: seq<nat>)
    returns (mapping: map<nat, nat>, output: seq<Edge>)
    requires var es := Keyed(edgeList, indegree);
      StablySorted(perm, KeyLengths(es, Keys(es)), ascending)
    ensures Outcome(edgeList, maintain, ascending, indegree, mapping)
    ensures |output| == |edgeList| && forall i | 0 <= i < |edgeList| :: Renamed(mapping, edgeList[i], output[i])
  {
    hide *;
    ghost var es := Keyed(edgeList, indegree);
    var keys, byNode := GroupEdges(edgeList, indegree);
    SortedPermutes(perm, KeyLengths(es, keys), ascending);
    var ordered := seq(|keys|, i requires 0 <= i < |keys| => keys[perm[i]]);
    OrderedKeys(es, keys, perm, ordered);
    var keyed, first := NumberKeys(ordered, maintain);
    ghost var lo := LeastId(maintain, 0 in ordered);
    var count;
    mapping, output, count := RewriteEdges(edgeList, keyed, first, lo);
    FinalIds(edgeList, indegree, keyed, mapping, lo, first, count, maintain, 0 in ordered);
    FinalOrder(es, perm, ordered, ascending, maintain, keyed, first, lo, mapping);
    FinalTies(es, perm, ordered, ascending, maintain, keyed, first, lo, mapping);
    FinalOthers(edgeList, es, keyed, mapping);
    OutcomeFrom(edgeList, maintain, ascending, indegree, mapping);
  }

  /** `degree.py` without the files; `perm` is the arrangement the sort produces. */
  method SortByDegree(edgeList: seq<Edge>, maintain: bool, ascending: bool, indegree: bool, perm: seq<nat>)
    returns (mapping: map<nat, nat>, output: seq<Edge>)
    requires var es := Keyed(edgeList, indegree);
      StablySorted(perm, KeyLengths(es, Keys(es)), ascending)
    ensures OwnIds(edgeList, mapping)
    ensures |output| == |edgeList| && forall i | 0 <= i < |edgeList| :: Renamed(mapping, edgeList[i], output[i])
    ensures IdsUsed(edgeList, maintain, 0 in Keys(Keyed(edgeList, indegree)), mapping)
    ensures DegreesInOrder(Keyed(edgeList, indegree), maintain, ascending, mapping)
    ensures Outcome(edgeList, maintain, ascending, indegree, mapping)
    // the renamed edges
    ensures forall i | 0 <= i < |edgeList| ::
      && edgeList[i].src in mapping && edgeList[i].dst in mapping
      && output[i] == Edge(mapping[edgeList[i].src], mapping[edgeList[i].dst])
    // the order of the keys
    ensures var es := Keyed(edgeList, indegree);
      forall u, v | u in Keys(es) && v in Keys(es) && !(maintain && (u == 0 || v == 0)) ::
        && u in mapping && v in mapping
        && (mapping[u] < mapping[v] ==> if ascending then Degree(es, u) <= Degree(es, v) else Degree(es, u) >= Degree(es, v))
    ensures var es := Keyed(edgeList, indegree);
      forall i, v | 0 <= i < |es| && v in Keys(es) && v != es[i].src && (forall k | 0 <= k < i :: es[k].src != v) &&
                    Degree(es, es[i].src) == Degree(es, v) && !(maintain && (es[i].src == 0 || v == 0)) ::
        es[i].src in mapping && v in mapping && mapping[es[i].src] < mapping[v]
    // the order of all others
    ensures forall i, v | 0 <= i < |edgeList| && v in mapping && v !in Keys(Keyed(edgeList, indegree)) &&
                          v != edgeList[i].src && (forall k | 0 <= k < i :: edgeList[k].src != v && edgeList[k].dst != v) ::
      && edgeList[i].src in mapping && edgeList[i].dst in mapping
      && mapping[edgeList[i].src] < mapping[v] && (v != edgeList[i].dst ==> mapping[edgeList[i].dst] < mapping[v])
  {
    hide *;
    mapping, output := Passes(edgeList, maintain, ascending, indegree, perm);
    OutcomeParts(edgeList, maintain, ascending, indegree, mapping);
    OutputMeans(edgeList, mapping, output);
    KeyOrderMeans(edgeList, maintain, ascending, indegree, mapping);
    TieOrderMeans(edgeList, maintain, ascending, indegree, mapping);
    OtherOrderMeans(edgeList, maintain, ascending, indegree, mapping);
  }

  lemma OutcomeParts(edgeList: seq<Edge>, maintain: bool, ascending: bool, indegree: bool, mapping: map<nat, nat>)
    requires Outcome(edgeList, maintain, ascending, indegree, mapping)
    ensures OwnIds(edgeList, mapping)
    ensures IdsUsed(edgeList, maintain, 0 in Keys(Keyed(edgeList, indegree)), mapping)
    ensures DegreesInOrder(Keyed(edgeList, indegree), maintain, ascending, mapping)
  {
  }

  /** Which vertices have ids, and which ids they have, written out. */
  lemma IdsMean(edgeList: seq<Edge>, maintain: bool, ascending: bool, indegree: bool, mapping: map<nat, nat>)
    requires Outcome(edgeList, maintain, ascending, indegree, mapping)
    ensures forall v :: v in mapping <==> exists i :: 0 <= i < |edgeList| && (edgeList[i].src == v || edgeList[i].dst == v)
    ensures forall u, v | u in mapping && v in mapping && u != v :: mapping[u] != mapping[v]
    ensures var zeroIsKey := exists i :: 0 <= i < |edgeList| && (if indegree then edgeList[i].dst else edgeList[i].src) == 0;
      && (forall x :: x in mapping.Values <==>
            if maintain && !zeroIsKey then 1 <= x <= |mapping| else 0 <= x < |mapping|)
      && (maintain && 0 in mapping ==> (mapping[0] == 0 <==> zeroIsKey))
  {
    hide Outcome, Keys, Keyed, Endpoints;
    OutcomeParts(edgeList, maintain, ascending, indegree, mapping);
    EndpointsMean(edgeList);
    ZeroIsKeyMeans(edgeList, indegree);
    assert |mapping| == |mapping.Keys|;
  }

  lemma EndpointsMean(es: seq<Edge>)
    ensures forall v :: v in Endpoints(es) <==> exists i :: 0 <= i < |es| && (es[i].src == v || es[i].dst == v)
  {
    forall v: nat ensures v in Endpoints(es) <==> exists i :: 0 <= i < |es| && (es[i].src == v || es[i].dst == v) {
      if i :| 0 <= i < |es| && (es[i].src == v || es[i].dst == v) {
        assert es[i] in es;
      }
    }
  }

  lemma ZeroIsKeyMeans(edgeList: seq<Edge>, indegree: bool)
    ensures 0 in Keys(Keyed(edgeList, indegree)) <==>
            exists i :: 0 <= i < |edgeList| && (if indegree then edgeList[i].dst else edgeList[i].src) == 0
  {
    var es := Keyed(edgeList, indegree);
    KeysAreSources(es);
    KeyedAt(edgeList, indegree);
    if i :| 0 <= i < |edgeList| && (if indegree then edgeList[i].dst else edgeList[i].src) == 0 {
      assert es[i].src == 0;
    }
    if i :| 0 <= i < |es| && es[i].src == 0 {
      assert (if indegree then edgeList[i].dst else edgeList[i].src) == 0;
    }
  }

  lemma OutcomeFrom(edgeList: seq<Edge>, maintain: bool, ascending: bool, indegree: bool, mapping: map<nat, nat>)
    requires OwnIds(edgeList, mapping)
    requires IdsUsed(edgeList, maintain, 0 in Keys(Keyed(edgeList, indegree)), mapping)
    requires DegreesInOrder(Keyed(edgeList, indegree), maintain, ascending, mapping)
    requires TiesInOrder(Keyed(edgeList, indegree), maintain, mapping)
    requires OthersInOrder(edgeList, Keyed(edgeList, indegree), mapping)
    ensures Outcome(edgeList, maintain, ascending, indegree, mapping)
  {
  }

  lemma OutputMeans(edgeList: seq<Edge>, mapping: map<nat, nat>, output: seq<Edge>)
    requires |output| == |edgeList| && forall i | 0 <= i < |edgeList| :: Renamed(mapping, edgeList[i], output[i])
    ensures forall i | 0 <= i < |edgeList| ::
      && edgeList[i].src in mapping && edgeList[i].dst in mapping
      && output[i] == Edge(mapping[edgeList[i].src], mapping[edgeList[i].dst])
  {
  }

  lemma KeyOrderMeans(edgeList: seq<Edge>, maintain: bool, ascending: bool, indegree: bool, mapping: map<nat, nat>)
    requires Outcome(edgeList, maintain, ascending, indegree, mapping)
    ensures var es := Keyed(edgeList, indegree);
      forall u, v | u in Keys(es) && v in Keys(es) && !(maintain && (u == 0 || v == 0)) ::
        && u in mapping && v in mapping
        && (mapping[u] < mapping[v] ==> if ascending then Degree(es, u) <= Degree(es, v) else Degree(es, u) >= Degree(es, v))
  {
    hide Keys, Keyed, Degree, OwnIds, IdsUsed, TiesInOrder, OthersInOrder;
  }

  lemma TieOrderMeans(edgeList: seq<Edge>, maintain: bool, ascending: bool, indegree: bool, mapping: map<nat, nat>)
    requires Outcome(edgeList, maintain, ascending, indegree, mapping)
    ensures var es := Keyed(edgeList, indegree);
      forall i, v | 0 <= i < |es| && v in Keys(es) && v != es[i].src && (forall k | 0 <= k < i :: es[k].src != v) &&
                    Degree(es, es[i].src) == Degree(es, v) && !(maintain && (es[i].src == 0 || v == 0)) ::
        es[i].src in mapping && v in mapping && mapping[es[i].src] < mapping[v]
  {
    hide Keys, Keyed, Degree, OwnIds, IdsUsed, DegreesInOrder, OthersInOrder;
    var es := Keyed(edgeList, indegree);
    forall i, v | 0 <= i < |es| && v in Keys(es) && v != es[i].src && (forall k | 0 <= k < i :: es[k].src != v) &&
                  Degree(es, es[i].src) == Degree(es, v) && !(maintain && (es[i].src == 0 || v == 0))
      ensures es[i].src in mapping && v in mapping && mapping[es[i].src] < mapping[v]
    {
      assert TieAt(es, maintain, mapping, i, v);
    }
  }

  lemma OtherOrderMeans(edgeList: seq<Edge>, maintain: bool, ascending: bool, indegree: bool, mapping: map<nat, nat>)
    requires Outcome(edgeList, maintain, ascending, indegree, mapping)
    ensures forall i, v | 0 <= i < |edgeList| && v in mapping && v !in Keys(Keyed(edgeList, indegree)) &&
                          v != edgeList[i].src && (forall k | 0 <= k < i :: edgeList[k].src != v && edgeList[k].dst != v) ::
      && edgeList[i].src in mapping && edgeList[i].dst in mapping
      && mapping[edgeList[i].src] < mapping[v] && (v != edgeList[i].dst ==> mapping[edgeList[i].dst] < mapping[v])
  {
    hide Keys, Keyed, Degree, OwnIds, IdsUsed, DegreesInOrder, TiesInOrder;
    var es := Keyed(edgeList, indegree);
    forall i, v | 0 <= i < |edgeList| && v in mapping && v !in Keys(es) &&
                  v != edgeList[i].src && (forall k | 0 <= k < i :: edgeList[k].src != v && edgeList[k].dst != v)
      ensures edgeList[i].src in mapping && edgeList[i].dst in mapping
      ensures mapping[edgeList[i].src] < mapping[v] && (v != edgeList[i].dst ==> mapping[edgeList[i].dst] < mapping[v])
    {
      assert NotBefore(edgeList, i, v);
      assert OtherAt(edgeList, es, mapping, i, v);
    }
  }

  lemma SortedPermutes(perm: seq<nat>, lens: seq<nat>, ascending: bool)
    requires StablySorted(perm, lens, ascending)
    ensures Permutes(perm, |lens|) && |perm| == |lens| && forall i | 0 <= i < |lens| :: perm[i] < |lens|
  {
  }

  lemma FinalIds(edgeList: seq<Edge>, indegree: bool, keyed: map<nat, nat>, mapping: map<nat, nat>,
                 lo: nat, first: nat, count: nat, maintain: bool, zeroIsKey: bool)
    requires forall v :: v in keyed <==> v in Keys(Keyed(edgeList, indegree))
    requires mapping.Keys == keyed.Keys + Endpoints(edgeList)
    requires Numbering(mapping, lo, count) && Extends(keyed, mapping, first)
    requires lo == LeastId(maintain, zeroIsKey) && (zeroIsKey <==> 0 in keyed)
    requires maintain && zeroIsKey ==> keyed[0] == 0
    ensures OwnIds(edgeList, mapping) && IdsUsed(edgeList, maintain, zeroIsKey, mapping)
  {
    hide Keys, Keyed, Endpoints, Numbering;
    KeysAreEndpoints(edgeList, indegree);
    assert mapping.Keys == Endpoints(edgeList);
    NumberingIsOnto(mapping, lo, count);
    LeastIdUsed(mapping, lo, count);
  }

  lemma LeastIdUsed(mapping: map<nat, nat>, lo: nat, count: nat)
    requires Numbering(mapping, lo, count)
    ensures forall u, v | u in mapping && v in mapping && u != v :: mapping[u] != mapping[v]
    ensures forall v | v in mapping :: lo <= mapping[v]
    ensures count == lo + |mapping.Keys|
  {
  }

  lemma KeysAreEndpoints(edgeList: seq<Edge>, indegree: bool)
    ensures forall v | v in Keys(Keyed(edgeList, indegree)) :: v in Endpoints(edgeList)
  {
    KeysAreSources(Keyed(edgeList, indegree));
  }

  lemma FinalOrder(es: seq<Edge>, perm: seq<nat>, ordered: seq<nat>, ascending: bool, maintain: bool,
                   keyed: map<nat, nat>, first: nat, lo: nat, mapping: map<nat, nat>)
    requires StablySorted(perm, KeyLengths(es, Keys(es)), ascending) && |ordered| == |Keys(es)|
    requires |perm| == |ordered|
    requires forall i | 0 <= i < |ordered| :: perm[i] < |ordered| && ordered[i] == Keys(es)[perm[i]]
    requires forall v :: v in ordered <==> v in Keys(es)
    requires forall v :: v in keyed <==> v in ordered
    requires Numbering(keyed, lo, first) && Extends(keyed, mapping, first) && FollowsOrder(keyed, ordered, maintain)
    ensures DegreesInOrder(es, maintain, ascending, mapping)
  {
    hide Keys, StablySorted, KeyLengths, FollowsOrder, DegreeOrder;
    forall u, v | u in Keys(es) && v in Keys(es) && keyed[u] < keyed[v] && !(maintain && (u == 0 || v == 0))
      ensures DegreeOrder(Degree(es, u), Degree(es, v), ascending)
    {
      KeysSorted(es, Keys(es), perm, ordered, ascending, maintain, keyed, u, v);
    }
  }

  lemma FinalTies(es: seq<Edge>, perm: seq<nat>, ordered: seq<nat>, ascending: bool, maintain: bool,
                  keyed: map<nat, nat>, first: nat, lo: nat, mapping: map<nat, nat>)
    requires StablySorted(perm, KeyLengths(es, Keys(es)), ascending) && |ordered| == |Keys(es)|
    requires |perm| == |ordered|
    requires forall i | 0 <= i < |ordered| :: perm[i] < |ordered| && ordered[i] == Keys(es)[perm[i]]
    requires forall v :: v in ordered <==> v in Keys(es)
    requires forall v :: v in keyed <==> v in ordered
    requires Extends(keyed, mapping, first) && FollowsOrder(keyed, ordered, maintain)
    ensures TiesInOrder(es, maintain, mapping)
  {
    hide Keys, StablySorted, KeyLengths, FollowsOrder, Degree;
    forall i, v | 0 <= i < |es| ensures TieAt(es, maintain, mapping, i, v) {
      var u := es[i].src;
      if v in Keys(es) && u != v && (forall k | 0 <= k < i :: es[k].src != v) && Degree(es, u) == Degree(es, v) &&
         !(maintain && (u == 0 || v == 0)) {
        KeyOccurs(es, i);
        KeysTied(es, perm, ordered, ascending, maintain, keyed, i, v);
      }
    }
  }

  lemma KeyOccurs(es: seq<Edge>, i: nat)
    requires i < |es|
    ensures es[i].src in Keys(es)
  {
    KeysAreSources(es);
  }

  lemma KeysTied(es: seq<Edge>, perm: seq<nat>, ordered: seq<nat>, ascending: bool, maintain: bool,
                 keyed: map<nat, nat>, i: nat, v: nat)
    requires StablySorted(perm, KeyLengths(es, Keys(es)), ascending) && |ordered| == |perm| == |Keys(es)|
    requires forall a | 0 <= a < |ordered| :: perm[a] < |ordered| && ordered[a] == Keys(es)[perm[a]]
    requires FollowsOrder(keyed, ordered, maintain)
    requires i < |es| && es[i].src in ordered && v in ordered && es[i].src in keyed && v in keyed && v != es[i].src
    requires (forall k | 0 <= k < i :: es[k].src != v) && Degree(es, es[i].src) == Degree(es, v)
    requires !(maintain && (es[i].src == 0 || v == 0))
    ensures keyed[es[i].src] < keyed[v]
  {
    hide Keys, Degree, FollowsOrder;
    var a :| 0 <= a < |ordered| && ordered[a] == es[i].src;
    var b :| 0 <= b < |ordered| && ordered[b] == v;
    KeysInOrder(es, i, perm[a], perm[b]);
    PrecedesAt(perm, KeyLengths(es, Keys(es)), ascending, b, a);
    FollowsOrderAt(keyed, ordered, maintain, a, b);
  }

  lemma PrecedesAt(perm: seq<nat>, lens: seq<nat>, ascending: bool, a: nat, b: nat)
    requires StablySorted(perm, lens, ascending) && a < |perm| && b < |perm|
    requires perm[a] < |lens| && perm[b] < |lens|
    ensures a < b ==> Precedes(lens, ascending, perm[a], perm[b])
  {
  }

  lemma FinalOthers(edgeList: seq<Edge>, es: seq<Edge>, keyed: map<nat, nat>, mapping: map<nat, nat>)
    requires forall v :: v in keyed <==> v in Keys(es)
    requires MetInOrder(edgeList, keyed, mapping)
    ensures OthersInOrder(edgeList, es, mapping)
  {
    hide Keys;
    forall i, v | 0 <= i < |edgeList| ensures OtherAt(edgeList, es, mapping, i, v) {
      assert MetAt(edgeList, keyed, mapping, i, v);
    }
  }

  // ---- the ids are determined by the input ----

  /** Vertex `u` occurs in the edge list before `v` does, the source of an edge coming before its destination. */
  ghost predicate OccursBefore(edgeList: seq<Edge>, u: nat, v: nat, i: nat) {
    i < |edgeList| && NotBefore(edgeList, i, v) && v != edgeList[i].src &&
    (edgeList[i].src == u || (edgeList[i].dst == u && v != edgeList[i].dst))
  }

  lemma {:induction false} OneOccursFirst(edgeList: seq<Edge>, u: nat, v: nat, i: nat) returns (j: nat)
    requires u != v && i < |edgeList|
    requires edgeList[i].src in {u, v} || edgeList[i].dst in {u, v}
    ensures OccursBefore(edgeList, u, v, j) || OccursBefore(edgeList, v, u, j)
  {
    if k: nat :| k < i && (edgeList[k].src in {u, v} || edgeList[k].dst in {u, v}) {
      j := OneOccursFirst(edgeList, u, v, k);
    } else {
      j := i;
    }
  }

  /** The same for the keys. */
  ghost predicate KeyedBefore(es: seq<Edge>, u: nat, v: nat, i: nat) {
    i < |es| && es[i].src == u && forall k | 0 <= k < i :: es[k].src != v
  }

  lemma {:induction false} OneKeyedFirst(es: seq<Edge>, u: nat, v: nat, i: nat) returns (j: nat)
    requires u != v && i < |es| && es[i].src in {u, v}
    ensures KeyedBefore(es, u, v, j) || KeyedBefore(es, v, u, j)
  {
    if k: nat :| k < i && es[k].src in {u, v} {
      j := OneKeyedFirst(es, u, v, k);
    } else {
      j := i;
    }
  }

  /** A reason, found in the input alone, for `u` to have a smaller id than `v`. */
  ghost predicate Reason(edgeList: seq<Edge>, maintain: bool, ascending: bool, indegree: bool, u: nat, v: nat, i: nat) {
    var es := Keyed(edgeList, indegree);
    var kept := maintain && 0 in Keys(es);
    if kept && (u == 0 || v == 0) then u == 0
    else if u in Keys(es) && v in Keys(es) then
      if Degree(es, u) == Degree(es, v) then KeyedBefore(es, u, v, i)
      else if ascending then Degree(es, u) < Degree(es, v) else Degree(es, u) > Degree(es, v)
    else if u in Keys(es) || v in Keys(es) then u in Keys(es)
    else OccursBefore(edgeList, u, v, i)
  }

  lemma ReasonExists(edgeList: seq<Edge>, maintain: bool, ascending: bool, indegree: bool, u: nat, v: nat)
    returns (i: nat)
    requires u != v && u in Endpoints(edgeList) && v in Endpoints(edgeList)
    ensures Reason(edgeList, maintain, ascending, indegree, u, v, i)
         || Reason(edgeList, maintain, ascending, indegree, v, u, i)
  {
    hide Keys, Degree;
    var es := Keyed(edgeList, indegree);
    if u in Keys(es) && v in Keys(es) {
      KeysAreSources(es);
      var j :| 0 <= j < |es| && es[j].src == u;
      i := OneKeyedFirst(es, u, v, j);
    } else {
      var e :| e in edgeList && (e.src == u || e.dst == u);
      var j :| 0 <= j < |edgeList| && edgeList[j] == e;
      i := OneOccursFirst(edgeList, u, v, j);
    }
  }

  lemma ReasonHolds(edgeList: seq<Edge>, maintain: bool, ascending: bool, indegree: bool, mapping: map<nat, nat>,
                    u: nat, v: nat, i: nat)
    requires Outcome(edgeList, maintain, ascending, indegree, mapping)
    requires u != v && u in mapping && v in mapping && Reason(edgeList, maintain, ascending, indegree, u, v, i)
    ensures mapping[u] < mapping[v]
  {
    hide Keys, Keyed, Degree, Endpoints;
    var es := Keyed(edgeList, indegree);
    if maintain && 0 in Keys(es) && (u == 0 || v == 0) {
      assert mapping[0] == 0 && mapping[u] != mapping[v];
    } else if u in Keys(es) && v in Keys(es) {
      if Degree(es, u) == Degree(es, v) {
        assert TieAt(es, maintain, mapping, i, v);
      } else {
        assert mapping[u] != mapping[v];
      }
    } else if u !in Keys(es) {
      assert OtherAt(edgeList, es, mapping, i, v);
    }
  }

  /** Any two outcomes order any two vertices alike. */
  lemma SameDirection(edgeList: seq<Edge>, maintain: bool, ascending: bool, indegree: bool,
                      a: map<nat, nat>, b: map<nat, nat>, u: nat, v: nat)
    requires Outcome(edgeList, maintain, ascending, indegree, a) && Outcome(edgeList, maintain, ascending, indegree, b)
    requires u in Endpoints(edgeList) && v in Endpoints(edgeList)
    ensures a.Keys == b.Keys == Endpoints(edgeList)
    ensures a[u] < a[v] <==> b[u] < b[v]
  {
    hide Reason, Endpoints, IdsUsed, DegreesInOrder, TiesInOrder, OthersInOrder;
    if u != v {
      var i := ReasonExists(edgeList, maintain, ascending, indegree, u, v);
      if Reason(edgeList, maintain, ascending, indegree, u, v, i) {
        ReasonHolds(edgeList, maintain, ascending, indegree, a, u, v, i);
        ReasonHolds(edgeList, maintain, ascending, indegree, b, u, v, i);
      } else {
        ReasonHolds(edgeList, maintain, ascending, indegree, a, v, u, i);
        ReasonHolds(edgeList, maintain, ascending, indegree, b, v, u, i);
      }
    }
  }

  /** Two numberings of the same vertices by the same numbers in the same order are equal. */
  lemma {:induction false} SameIds(a: map<nat, nat>, b: map<nat, nat>, u: nat)
    requires a.Keys == b.Keys && a.Values == b.Values && u in a
    requires forall v, w | v in a && w in a && v != w :: a[v] != a[w] && b[v] != b[w]
    requires forall v, w | v in a && w in a :: a[v] < a[w] <==> b[v] < b[w]
    ensures a[u] == b[u]
    decreases a[u]
  {
    if b[u] < a[u] {
      assert b[u] in a.Values;
      var w :| w in a && a[w] == b[u];
      SameIds(a, b, w);
      assert false;
    } else if a[u] < b[u] {
      assert a[u] in b.Values;
      var w :| w in b && b[w] == a[u];
      SameIds(a, b, w);
      assert false;
    }
  }

  /** The ids and the rewritten edge list are determined by the edge list and the options. */
  lemma OutputIsDetermined(edgeList: seq<Edge>, maintain: bool, ascending: bool, indegree: bool,
                           a: map<nat, nat>, b: map<nat, nat>, output: seq<Edge>, output': seq<Edge>)
    requires Outcome(edgeList, maintain, ascending, indegree, a) && Outcome(edgeList, maintain, ascending, indegree, b)
    requires |output| == |output'| == |edgeList|
    requires forall i | 0 <= i < |edgeList| :: Renamed(a, edgeList[i], output[i]) && Renamed(b, edgeList[i], output'[i])
    ensures a == b && output == output'
  {
    hide Endpoints, Keys, Keyed, DegreesInOrder, TiesInOrder, OthersInOrder;
    assert a.Values == b.Values;
    forall v, w | v in a && w in a ensures a[v] < a[w] <==> b[v] < b[w] {
      SameDirection(edgeList, maintain, ascending, indegree, a, b, v, w);
    }
    forall u | u in a ensures a[u] == b[u] {
      SameIds(a, b, u);
    }
  }

  lemma OrderedKeys(es: seq<Edge>, keys: seq<nat>, perm: seq<nat>, ordered: seq<nat>)
    requires keys == Keys(es) && Permutes(perm, |keys|) && |ordered| == |keys|
    requires forall i | 0 <= i < |keys| :: ordered[i] == keys[perm[i]]
    ensures Distinct(ordered)
    ensures forall v :: v in ordered <==> v in keys
  {
    KeysAreSources(es);
    forall i, j | 0 <= i < j < |ordered| ensures ordered[i] != ordered[j] {
      assert perm[i] != perm[j];
    }
    forall v | v in keys ensures v in ordered {
      var p :| 0 <= p < |keys| && keys[p] == v;
      var i := PositionOf(perm, |keys|, p);
      assert ordered[i] == v;
    }
  }

  lemma FollowsOrderAt(mapping: map<nat, nat>, ordered: seq<nat>, maintain: bool, i: nat, j: nat)
    requires FollowsOrder(mapping, ordered, maintain) && i < |ordered| && j < |ordered|
    requires ordered[i] in mapping && ordered[j] in mapping
    requires !(maintain && (ordered[i] == 0 || ordered[j] == 0))
    ensures i < j ==> mapping[ordered[i]] < mapping[ordered[j]]
  {
  }

  lemma KeysSorted(es: seq<Edge>, keys: seq<nat>, perm: seq<nat>, ordered: seq<nat>, ascending: bool, maintain: bool,
                   keyed: map<nat, nat>, u: nat, v: nat)
    requires StablySorted(perm, KeyLengths(es, keys), ascending) && |ordered| == |keys|
    requires forall i | 0 <= i < |keys| :: ordered[i] == keys[perm[i]]
    requires FollowsOrder(keyed, ordered, maintain)
    requires u in ordered && v in ordered && u in keyed && v in keyed && keyed[u] < keyed[v]
    requires !(maintain && (u == 0 || v == 0))
    ensures DegreeOrder(Degree(es, u), Degree(es, v), ascending)
  {
    var i :| 0 <= i < |ordered| && ordered[i] == u;
    var j :| 0 <= j < |ordered| && ordered[j] == v;
    FollowsOrderAt(keyed, ordered, maintain, j, i);
    assert i < j ==> Precedes(KeyLengths(es, keys), ascending, perm[i], perm[j]);
  }

  lemma OneEdge()
    ensures Keyed([Edge(1, 0)], false) == [Edge(1, 0)] && Keys([Edge(1, 0)]) == [1]
    ensures Endpoints([Edge(1, 0)]) == {0, 1}
  {
    var es := [Edge(1, 0)];
    assert es[..0] == [];
    assert es[0] in es;
  }

  lemma TwoIds(mapping: map<nat, nat>)
    requires mapping.Keys == {0, 1} && mapping[1] < mapping[0]
    requires forall x :: x in mapping.Values <==> 1 <= x <= 2
    ensures mapping == map[1 := 1, 0 := 2]
  {
    assert 0 in mapping && 1 in mapping;
    assert mapping[0] in mapping.Values && mapping[1] in mapping.Values;
  }

  /**
   * With `-m`, vertex 0 is not kept when it is only a destination: a single edge from 1 to 0 gets the ids
   * 1 and 2.
   */
  lemma ZeroNotKept(mapping: map<nat, nat>)
    requires var es := [Edge(1, 0)];
      && OwnIds(es, mapping)
      && IdsUsed(es, true, 0 in Keys(Keyed(es, false)), mapping)
      && DegreesInOrder(Keyed(es, false), true, false, mapping)
    ensures 0 in Endpoints([Edge(1, 0)]) && 0 !in Keys([Edge(1, 0)])
    ensures mapping == map[1 := 1, 0 := 2]
  {
    hide Endpoints, Keys, Keyed;
    OneEdge();
    var ends: set<nat> := {0, 1};
    assert |ends| == 2;
    assert 1 in Keys([Edge(1, 0)]) && 0 in mapping;
    TwoIds(mapping);
  }
}
