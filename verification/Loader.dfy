/**
 * The parallel loops of the loader as transition systems: `count_degree_1_atomic`, and the scatter
 * of `create_edges` into the rows of both directions. Every edge index is a task of its own, and
 * the atomic operations of different tasks interleave freely.
 */
module Loader {
  import opened Sums
  import opened Graphs
  import opened Words

  // ---- counting degrees ----

  datatype Counting = Counting(pcs: seq<nat>, out: seq<nat>, inn: seq<nat>)

  function Increment(s: seq<nat>, v: nat): seq<nat>
    requires v < |s|
  {
    s[v := s[v] + 1]
  }

  ghost function CountStart(n: nat, es: seq<Edge>): Counting {
    Counting(seq(|es|, _ => 0), seq(n, _ => 0), seq(n, _ => 0))
  }

  /** Task `i`: 0 counts the source, 1 counts the destination if the graph is symmetric, 2 is over. */
  ghost predicate CountStep(n: nat, es: seq<Edge>, symmetric: bool, s: Counting, s': Counting, i: nat)
    requires InRange(es, n) && i < |es| == |s.pcs| && |s.out| == |s.inn| == n
  {
    if s.pcs[i] == 0 then
      s' == Counting(s.pcs[i := if symmetric then 1 else 2], Increment(s.out, es[i].src), s.inn)
    else
      s.pcs[i] == 1 && s' == Counting(s.pcs[i := 2], s.out, Increment(s.inn, es[i].dst))
  }

  ghost predicate CountNext(n: nat, es: seq<Edge>, symmetric: bool, s: Counting, s': Counting)
    requires InRange(es, n)
  {
    && |s.pcs| == |es| && |s.out| == |s.inn| == n
    && exists i :: 0 <= i < |es| && CountStep(n, es, symmetric, s, s', i)
  }

  ghost predicate CountTrace(n: nat, es: seq<Edge>, symmetric: bool, tr: seq<Counting>)
    requires InRange(es, n)
  {
    && |tr| > 0 && tr[0] == CountStart(n, es)
    && forall i | 0 <= i < |tr| - 1 :: CountNext(n, es, symmetric, tr[i], tr[i+1])
  }

  ghost predicate CountDone(s: Counting) {
    forall i | 0 <= i < |s.pcs| :: s.pcs[i] == 2
  }

  /** Which tasks with source `v` have got past point `point`; one entry per task. */
  ghost function Hits(es: seq<Edge>, pcs: seq<nat>, point: nat, v: nat): (r: seq<nat>)
    requires |es| == |pcs|
    ensures |r| == |es|
  {
    seq(|es|, i requires 0 <= i < |es| => if pcs[i] > point && es[i].src == v then 1 else 0)
  }

  ghost predicate CountInv(n: nat, es: seq<Edge>, symmetric: bool, s: Counting) {
    && InRange(es, n) && |s.pcs| == |es| && |s.out| == |s.inn| == n
    && (forall i | 0 <= i < |es| :: s.pcs[i] <= 2 && (s.pcs[i] == 1 ==> symmetric))
    && (forall v | 0 <= v < n :: s.out[v] == Sum(Hits(es, s.pcs, 0, v)))
    && (symmetric ==> forall v | 0 <= v < n :: s.inn[v] == Sum(Hits(Reverse(es), s.pcs, 1, v)))
  }

  lemma CountStepInv(n: nat, es: seq<Edge>, symmetric: bool, s: Counting, s': Counting, i: nat)
    requires CountInv(n, es, symmetric, s) && i < |es| && CountStep(n, es, symmetric, s, s', i)
    ensures CountInv(n, es, symmetric, s')
  {
    forall v | 0 <= v < n ensures s'.out[v] == Sum(Hits(es, s'.pcs, 0, v)) {
      SumUpdate(Hits(es, s.pcs, 0, v), Hits(es, s'.pcs, 0, v), i);
    }
    if symmetric {
      forall v | 0 <= v < n ensures s'.inn[v] == Sum(Hits(Reverse(es), s'.pcs, 1, v)) {
        SumUpdate(Hits(Reverse(es), s.pcs, 1, v), Hits(Reverse(es), s'.pcs, 1, v), i);
      }
    }
  }

  lemma {:induction false} CountTraceInv(n: nat, es: seq<Edge>, symmetric: bool, tr: seq<Counting>, k: nat)
    requires InRange(es, n) && CountTrace(n, es, symmetric, tr) && k < |tr|
    ensures CountInv(n, es, symmetric, tr[k])
  {
    if k == 0 {
      forall v | 0 <= v < n
        ensures Sum(Hits(es, tr[0].pcs, 0, v)) == 0 && Sum(Hits(Reverse(es), tr[0].pcs, 1, v)) == 0
      {
        SumConstant(Hits(es, tr[0].pcs, 0, v), 0);
        SumConstant(Hits(Reverse(es), tr[0].pcs, 1, v), 0);
      }
    } else {
      CountTraceInv(n, es, symmetric, tr, k - 1);
      assert CountNext(n, es, symmetric, tr[k-1], tr[k]);
      var i :| 0 <= i < |es| && CountStep(n, es, symmetric, tr[k-1], tr[k], i);
      CountStepInv(n, es, symmetric, tr[k-1], tr[k], i);
    }
  }

  lemma {:induction false} HitsAreDegree(es: seq<Edge>, pcs: seq<nat>, point: nat, v: nat)
    requires |es| == |pcs| && forall i | 0 <= i < |es| :: pcs[i] > point
    ensures Sum(Hits(es, pcs, point, v)) == Degree(es, v)
  {
    if |es| > 0 {
      var m := |es| - 1;
      HitsAreDegree(es[..m], pcs[..m], point, v);
      assert Hits(es, pcs, point, v)[..m] == Hits(es[..m], pcs[..m], point, v);
    }
  }

  /** Under every schedule the atomic counters end up equal to the degrees. */
  lemma CountResult(n: nat, es: seq<Edge>, symmetric: bool, tr: seq<Counting>)
    requires InRange(es, n) && CountTrace(n, es, symmetric, tr) && CountDone(tr[|tr|-1])
    ensures tr[|tr|-1].out == Degrees(es, n)
    ensures symmetric ==> tr[|tr|-1].inn == Degrees(Reverse(es), n)
  {
    CountTraceInv(n, es, symmetric, tr, |tr| - 1);
    var s := tr[|tr|-1];
    forall v | 0 <= v < n
      ensures s.out[v] == Degree(es, v)
      ensures symmetric ==> s.inn[v] == Degree(Reverse(es), v)
    {
      HitsAreDegree(es, s.pcs, 0, v);
      HitsAreDegree(Reverse(es), s.pcs, 1, v);
    }
  }

  /** No schedule gets stuck before all tasks are over. */
  lemma CountNeverStuck(n: nat, es: seq<Edge>, symmetric: bool, s: Counting)
    requires CountInv(n, es, symmetric, s) && !CountDone(s)
    ensures exists s' :: CountNext(n, es, symmetric, s, s')
  {
    var i :| 0 <= i < |s.pcs| && s.pcs[i] != 2;
    var s' := if s.pcs[i] == 0
      then Counting(s.pcs[i := if symmetric then 1 else 2], Increment(s.out, es[i].src), s.inn)
      else Counting(s.pcs[i := 2], s.out, Increment(s.inn, es[i].dst));
    assert CountStep(n, es, symmetric, s, s', i);
    assert CountNext(n, es, symmetric, s, s');
  }

  /** ... and none runs for ever. */
  lemma {:induction false} CountRunsAreBounded(n: nat, es: seq<Edge>, symmetric: bool, tr: seq<Counting>, k: nat)
    requires InRange(es, n) && CountTrace(n, es, symmetric, tr) && k < |tr|
    ensures k + Sum(Countdown(tr[k].pcs, 2)) <= |es| * 2
  {
    hide Countdown;
    if k == 0 {
      CountdownStart(|es|, 2);
    } else {
      CountRunsAreBounded(n, es, symmetric, tr, k - 1);
      assert CountNext(n, es, symmetric, tr[k-1], tr[k]);
      var i :| 0 <= i < |es| && CountStep(n, es, symmetric, tr[k-1], tr[k], i);
      CountdownStep(tr[k-1].pcs, 2, i, tr[k].pcs[i]);
    }
  }

  /** Every run can be continued until all degrees are counted. */
  lemma {:induction false} CompleteCount(n: nat, es: seq<Edge>, symmetric: bool, tr: seq<Counting>)
    returns (full: seq<Counting>)
    requires InRange(es, n) && CountTrace(n, es, symmetric, tr)
    ensures CountTrace(n, es, symmetric, full) && CountDone(full[|full|-1]) && tr <= full
    decreases |es| * 2 + 1 - |tr|
  {
    hide CountNext, CountInv, Countdown, Sum;
    var s := tr[|tr|-1];
    CountTraceInv(n, es, symmetric, tr, |tr| - 1);
    CountRunsAreBounded(n, es, symmetric, tr, |tr| - 1);
    if CountDone(s) {
      full := tr;
    } else {
      CountNeverStuck(n, es, symmetric, s);
      var s' :| CountNext(n, es, symmetric, s, s');
      full := CompleteCount(n, es, symmetric, tr + [s']);
    }
  }

  // ---- prefix sums ----

  /** The running sums of `d`, starting with 0; one entry more than `d`. */
  function PrefixSums(d: seq<nat>): (r: seq<nat>)
    ensures |r| == |d| + 1
  {
    seq(|d| + 1, i requires 0 <= i <= |d| => Sum(d[..i]))
  }

  /** Row offsets that agree with the degrees of the edge list. */
  ghost predicate RowOffsets(off: seq<nat>, n: nat, es: seq<Edge>) {
    && Offsets(off, n, |es|)
    && forall v | 0 <= v < n :: off[v + 1] == off[v] + Degree(es, v)
  }

  lemma {:induction false} PrefixMonotone(d: seq<nat>, i: nat, j: nat)
    requires i <= j <= |d|
    ensures Sum(d[..i]) <= Sum(d[..j])
  {
    if i < j {
      PrefixMonotone(d, i, j - 1);
      SumPrefix(d, j - 1);
    }
  }

  lemma PrefixSumsAreRowOffsets(n: nat, es: seq<Edge>)
    requires forall i | 0 <= i < |es| :: es[i].src < n
    ensures RowOffsets(PrefixSums(Degrees(es, n)), n, es)
  {
    var d := Degrees(es, n);
    DegreeSum(es, n);
    assert d[..n] == d;
    forall i, j | 0 <= i <= j <= n ensures PrefixSums(d)[i] <= PrefixSums(d)[j] {
      PrefixMonotone(d, i, j);
    }
    forall v | 0 <= v < n ensures PrefixSums(d)[v + 1] == PrefixSums(d)[v] + Degree(es, v) {
      SumPrefix(d, v);
    }
  }

  // ---- scattering one direction ----

  /**
   * The memory of one direction: slot counters, the edge array, how often each entry was stored
   * to, and per task whether it has reserved and stored. `order` remembers, per vertex, which
   * tasks reserved a slot, in the order of their fetch-and-adds.
   */
  datatype Side = Side(cnt: seq<nat>, mem: seq<nat>, writes: seq<nat>, reserved: seq<bool>,
                       stored: seq<bool>, slot: seq<nat>, order: seq<seq<nat>>)

  ghost function SideStart(n: nat, es: seq<Edge>, mem: seq<nat>): Side {
    Side(seq(n, _ => 0), mem, seq(|es|, _ => 0), seq(|es|, _ => false), seq(|es|, _ => false),
         seq(|es|, _ => 0), seq(n, _ => []))
  }

  ghost predicate SideSized(n: nat, es: seq<Edge>, s: Side) {
    && |s.cnt| == |s.order| == n
    && |s.mem| == |s.writes| == |s.reserved| == |s.stored| == |s.slot| == |es|
  }

  /** The fetch-and-add of task `j`; the 32-bit counter wraps around. */
  ghost function Reserve(n: nat, es: seq<Edge>, s: Side, j: nat): Side
    requires InRange(es, n) && SideSized(n, es, s) && j < |es|
  {
    var v := es[j].src;
    s.(cnt := s.cnt[v := Wrap(s.cnt[v] + 1)],
       slot := s.slot[j := s.cnt[v]],
       reserved := s.reserved[j := true],
       order := s.order[v := s.order[v] + [j]])
  }

  /** The address task `j` stores to. */
  ghost function Address(off: seq<nat>, n: nat, es: seq<Edge>, s: Side, j: nat): nat
    requires RowOffsets(off, n, es) && InRange(es, n) && SideSized(n, es, s) && j < |es|
  {
    off[es[j].src] + s.slot[j]
  }

  ghost function Store(off: seq<nat>, n: nat, es: seq<Edge>, s: Side, j: nat): Side
    requires RowOffsets(off, n, es) && InRange(es, n) && SideSized(n, es, s) && j < |es|
    requires Address(off, n, es, s, j) < |es|
  {
    var a := Address(off, n, es, s, j);
    s.(mem := s.mem[a := es[j].dst],
       writes := s.writes[a := s.writes[a] + 1],
       stored := s.stored[j := true])
  }

  /** No vertex has more edges than a 32-bit counter can tell apart. */
  ghost predicate Fits(n: nat, es: seq<Edge>) {
    forall v | 0 <= v < n :: Degree(es, v) <= WORD
  }

  ghost predicate OrderOk(n: nat, es: seq<Edge>, s: Side, v: nat)
    requires SideSized(n, es, s) && v < n
  {
    && Distinct(s.order[v]) && s.cnt[v] == Wrap(|s.order[v]|)
    && forall k | 0 <= k < |s.order[v]| ::
         var j := s.order[v][k];
         j < |es| && es[j].src == v && s.reserved[j] && s.slot[j] == Wrap(k)
  }

  /** What has been written to the `k`-th entry of row `v`. */
  ghost predicate EntryOk(off: seq<nat>, n: nat, es: seq<Edge>, s: Side, v: nat, k: nat)
    requires RowOffsets(off, n, es) && SideSized(n, es, s) && v < n
  {
    off[v] + k < |es| &&
    if k < |s.order[v]| && s.order[v][k] < |es| && s.stored[s.order[v][k]]
    then s.writes[off[v] + k] == 1 && s.mem[off[v] + k] == es[s.order[v][k]].dst
    else s.writes[off[v] + k] == 0
  }

  ghost predicate SideInv(off: seq<nat>, n: nat, es: seq<Edge>, s: Side) {
    && InRange(es, n) && RowOffsets(off, n, es) && SideSized(n, es, s)
    && (forall v | 0 <= v < n :: OrderOk(n, es, s, v))
    && (forall j | 0 <= j < |es| && s.reserved[j] :: j in s.order[es[j].src])
    && (forall j | 0 <= j < |es| && s.stored[j] :: s.reserved[j])
    && (Fits(n, es) ==> forall v, k: nat | 0 <= v < n && k < Degree(es, v) ::
          EntryOk(off, n, es, s, v, k))
    // entries beyond the reach of the counter are never written
    && (forall v | 0 <= v < n && Degree(es, v) > WORD ::
          off[v] + WORD < |es| && s.writes[off[v] + WORD] == 0)
  }

  /** Tasks that reserved for `v` are among the edges leaving `v`. */
  lemma {:induction false} OrderBound(es: seq<Edge>, v: nat, o: seq<nat>)
    requires Distinct(o) && forall k | 0 <= k < |o| :: o[k] < |es| && es[o[k]].src == v
    ensures |o| <= Degree(es, v)
  {
    if |o| > 0 {
      assert o[0] < |es|;
      var m := |es| - 1;
      if p :| 0 <= p < |o| && o[p] == m {
        OrderBound(es[..m], v, Without(o, p));
      } else {
        OrderBound(es[..m], v, o);
      }
    }
  }

  ghost function Targets(es: seq<Edge>): (r: seq<nat>)
    ensures |r| == |es|
  {
    seq(|es|, i requires 0 <= i < |es| => es[i].dst)
  }

  /** `o` lists exactly the edges leaving `v`, each once. */
  ghost predicate Lists(es: seq<Edge>, v: nat, o: seq<nat>) {
    && Distinct(o)
    && (forall k | 0 <= k < |o| :: o[k] < |es| && es[o[k]].src == v)
    && (forall j: nat | j < |es| && es[j].src == v :: j in o)
  }

  lemma ListsWithout(es: seq<Edge>, v: nat, o: seq<nat>, p: nat)
    requires |es| > 0 && Lists(es, v, o) && p < |o| && o[p] == |es| - 1
    ensures Lists(es[..|es|-1], v, Without(o, p))
  {
    var m, r := |es| - 1, Without(o, p);
    forall j: nat | j < m && es[j].src == v ensures j in r {
      var k :| 0 <= k < |o| && o[k] == j;
      assert r[if k < p then k else k - 1] == j;
    }
  }

  lemma ListsPrefix(es: seq<Edge>, v: nat, o: seq<nat>)
    requires |es| > 0 && Lists(es, v, o) && es[|es|-1].src != v
    ensures Lists(es[..|es|-1], v, o)
  {
  }

  /** When all of them have reserved, they deliver exactly the destinations of `v`. */
  lemma {:induction false} OrderComplete(es: seq<Edge>, v: nat, o: seq<nat>)
    requires Lists(es, v, o)
    ensures Below(o, |es|) && multiset(Pick(Targets(es), o)) == multiset(Dsts(es, v))
  {
    if |es| > 0 {
      var m := |es| - 1;
      if es[m].src == v {
        var p :| 0 <= p < |o| && o[p] == m;
        ListsWithout(es, v, o, p);
        OrderComplete(es[..m], v, Without(o, p));
        PickWithout(Targets(es), o, p);
        assert Pick(Targets(es), Without(o, p)) == Pick(Targets(es[..m]), Without(o, p));
      } else {
        ListsPrefix(es, v, o);
        OrderComplete(es[..m], v, o);
        assert Pick(Targets(es), o) == Pick(Targets(es[..m]), o);
      }
    }
  }

  // ---- the steps keep the invariant ----

  lemma EntryAddress(off: seq<nat>, n: nat, es: seq<Edge>, v: nat, k: nat)
    requires RowOffsets(off, n, es) && v < n && k < Degree(es, v)
    ensures off[v] + k < off[v + 1] <= |es|
  {
    assert off[v + 1] <= off[n];
  }

  lemma RowsOrdered(off: seq<nat>, n: nat, es: seq<Edge>, v: nat, u: nat)
    requires RowOffsets(off, n, es) && v < n && u < n
    ensures v < u ==> off[v + 1] <= off[u]
  {
  }

  /** Rows do not overlap. */
  lemma AddressUnique(off: seq<nat>, n: nat, es: seq<Edge>, v: nat, k: nat, u: nat, l: nat)
    requires RowOffsets(off, n, es) && v < n && k < Degree(es, v) && u < n && l < Degree(es, u)
    requires off[v] + k == off[u] + l
    ensures v == u && k == l
  {
    EntryAddress(off, n, es, v, k);
    EntryAddress(off, n, es, u, l);
    RowsOrdered(off, n, es, v, u);
    RowsOrdered(off, n, es, u, v);
  }

  lemma SideStartInv(off: seq<nat>, n: nat, es: seq<Edge>, mem: seq<nat>)
    requires InRange(es, n) && RowOffsets(off, n, es) && |mem| == |es|
    ensures SideInv(off, n, es, SideStart(n, es, mem))
  {
    var s := SideStart(n, es, mem);
    forall v, k: nat | 0 <= v < n && k < Degree(es, v) ensures EntryOk(off, n, es, s, v, k) {
      EntryAddress(off, n, es, v, k);
    }
    forall v | 0 <= v < n && Degree(es, v) > WORD ensures off[v] + WORD < |es| {
      EntryAddress(off, n, es, v, WORD);
    }
  }

  lemma ReserveOrder(off: seq<nat>, n: nat, es: seq<Edge>, s: Side, j: nat, v: nat)
    requires SideInv(off, n, es, s) && j < |es| && !s.reserved[j] && v < n
    ensures OrderOk(n, es, Reserve(n, es, s, j), v)
  {
    AddWrapped(|s.order[v]|, 1);
    assert OrderOk(n, es, s, v);
  }

  lemma ReserveInv(off: seq<nat>, n: nat, es: seq<Edge>, s: Side, j: nat)
    requires SideInv(off, n, es, s) && j < |es| && !s.reserved[j]
    ensures SideInv(off, n, es, Reserve(n, es, s, j))
  {
    var s' := Reserve(n, es, s, j);
    forall v | 0 <= v < n ensures OrderOk(n, es, s', v) { ReserveOrder(off, n, es, s, j, v); }
    forall i | 0 <= i < |es| && s'.reserved[i] ensures i in s'.order[es[i].src] {
      if i == j {
        assert s'.order[es[j].src][|s.order[es[j].src]|] == j;
      } else {
        assert i in s.order[es[i].src];
      }
    }
    if Fits(n, es) {
      forall v, k: nat | 0 <= v < n && k < Degree(es, v)
        ensures EntryOk(off, n, es, s', v, k)
      {
        assert EntryOk(off, n, es, s, v, k);
      }
    }
  }

  lemma StoreAddress(off: seq<nat>, n: nat, es: seq<Edge>, s: Side, j: nat) returns (k: nat)
    requires SideInv(off, n, es, s) && j < |es| && s.reserved[j]
    ensures k < |s.order[es[j].src]| <= Degree(es, es[j].src) && s.order[es[j].src][k] == j
    ensures s.slot[j] == Wrap(k) <= k
    ensures Address(off, n, es, s, j) < |es|
  {
    var v := es[j].src;
    assert OrderOk(n, es, s, v) && j in s.order[v];
    k :| 0 <= k < |s.order[v]| && s.order[v][k] == j;
    OrderBound(es, v, s.order[v]);
    EntryAddress(off, n, es, v, Wrap(k));
  }

  lemma StoreEntry(off: seq<nat>, n: nat, es: seq<Edge>, s: Side, j: nat, v: nat, k: nat)
    requires SideInv(off, n, es, s) && Fits(n, es) && j < |es| && s.reserved[j] && !s.stored[j]
    requires v < n && k < Degree(es, v) && Address(off, n, es, s, j) < |es|
    ensures OrderOk(n, es, Store(off, n, es, s, j), v)
    ensures EntryOk(off, n, es, Store(off, n, es, s, j), v, k)
  {
    var q := StoreAddress(off, n, es, s, j);
    assert OrderOk(n, es, s, v) && OrderOk(n, es, s, es[j].src);
    assert EntryOk(off, n, es, s, v, k);
    assert Degree(es, es[j].src) <= WORD;
    if k < |s.order[v]| && s.order[v][k] == j {
      assert es[j].src == v && k == q;
    } else if off[v] + k == Address(off, n, es, s, j) {
      AddressUnique(off, n, es, v, k, es[j].src, q);
    }
  }

  lemma StoreInv(off: seq<nat>, n: nat, es: seq<Edge>, s: Side, j: nat)
    requires SideInv(off, n, es, s) && j < |es| && s.reserved[j] && !s.stored[j]
    ensures Address(off, n, es, s, j) < |es|
    ensures SideInv(off, n, es, Store(off, n, es, s, j))
  {
    var q := StoreAddress(off, n, es, s, j);
    var s' := Store(off, n, es, s, j);
    forall v | 0 <= v < n ensures OrderOk(n, es, s', v) { assert OrderOk(n, es, s, v); }
    if Fits(n, es) {
      forall v, k: nat | 0 <= v < n && k < Degree(es, v)
        ensures EntryOk(off, n, es, s', v, k)
      {
        StoreEntry(off, n, es, s, j, v, k);
      }
    }
    forall v | 0 <= v < n && Degree(es, v) > WORD
      ensures off[v] + WORD < |es| && s'.writes[off[v] + WORD] == 0
    {
      if Address(off, n, es, s, j) == off[v] + WORD {
        AddressUnique(off, n, es, v, WORD, es[j].src, s.slot[j]);
      }
    }
  }

  /** Every address belongs to exactly one row. */
  lemma {:induction false} RowOf(off: seq<nat>, n: nat, es: seq<Edge>, a: nat, hi: nat) returns (v: nat)
    requires RowOffsets(off, n, es) && hi <= n && a < off[hi]
    ensures v < hi && off[v] <= a < off[v + 1]
    decreases hi
  {
    if off[hi - 1] <= a {
      v := hi - 1;
    } else {
      v := RowOf(off, n, es, a, hi - 1);
    }
  }

  lemma AllReserved(off: seq<nat>, n: nat, es: seq<Edge>, s: Side, v: nat)
    requires SideInv(off, n, es, s) && v < n && forall j | 0 <= j < |es| :: s.reserved[j]
    ensures Lists(es, v, s.order[v]) && Below(s.order[v], |es|) && |s.order[v]| == Degree(es, v)
    ensures multiset(Pick(Targets(es), s.order[v])) == multiset(Dsts(es, v))
  {
    assert OrderOk(n, es, s, v);
    OrderComplete(es, v, s.order[v]);
    assert |multiset(Pick(Targets(es), s.order[v]))| == |s.order[v]|;
    assert |multiset(Dsts(es, v))| == |Dsts(es, v)|;
  }

  /** After the join, if all degrees fit the slot counters, the edge array is a row layout of the edge list. */
  lemma SideResult(off: seq<nat>, n: nat, es: seq<Edge>, s: Side)
    requires SideInv(off, n, es, s) && Fits(n, es) && forall j | 0 <= j < |es| :: s.stored[j]
    ensures Represents(Csr(off, s.mem), n, es)
  {
    var c := Csr(off, s.mem);
    forall v | 0 <= v < n ensures multiset(Segment(c, n, v)) == multiset(Dsts(es, v)) {
      AllReserved(off, n, es, s, v);
      assert off[v + 1] <= off[n];
      forall k: nat | k < Degree(es, v) ensures Segment(c, n, v)[k] == Pick(Targets(es), s.order[v])[k] {
        assert EntryOk(off, n, es, s, v, k);
      }
      assert Segment(c, n, v) == Pick(Targets(es), s.order[v]);
    }
  }

  /** Every entry is stored to exactly once if and only if no degree exceeds the range of the counters. */
  lemma WrittenOnceExactly(off: seq<nat>, n: nat, es: seq<Edge>, s: Side)
    requires SideInv(off, n, es, s) && forall j | 0 <= j < |es| :: s.stored[j]
    ensures (forall a | 0 <= a < |es| :: s.writes[a] == 1) <==> Fits(n, es)
  {
    if Fits(n, es) {
      forall a | 0 <= a < |es| ensures s.writes[a] == 1 {
        var v := RowOf(off, n, es, a, n);
        AllReserved(off, n, es, s, v);
        var k := a - off[v];
        assert EntryOk(off, n, es, s, v, k);
      }
    }
  }

  // ---- create_edges ----

  datatype LoadEnv = LoadEnv(n: nat, es: seq<Edge>, symmetric: bool, outOff: seq<nat>, inOff: seq<nat>)

  datatype LoadState = LoadState(pcs: seq<nat>, out: Side, inn: Side)

  ghost predicate LoadEnvOk(c: LoadEnv) {
    && InRange(c.es, c.n) && RowOffsets(c.outOff, c.n, c.es)
    && InRange(Reverse(c.es), c.n) && (c.symmetric ==> RowOffsets(c.inOff, c.n, Reverse(c.es)))
  }

  ghost function LoadStart(c: LoadEnv, outMem: seq<nat>, inMem: seq<nat>): LoadState {
    LoadState(seq(|c.es|, _ => 0), SideStart(c.n, c.es, outMem), SideStart(c.n, Reverse(c.es), inMem))
  }

  ghost predicate LoadInv(c: LoadEnv, s: LoadState) {
    && LoadSized(c, s)
    && SideInv(c.outOff, c.n, c.es, s.out)
    && (c.symmetric ==> SideInv(c.inOff, c.n, Reverse(c.es), s.inn))
    && (forall i | 0 <= i < |c.es| :: s.pcs[i] <= 4 && (s.pcs[i] in {2, 3} ==> c.symmetric))
    && (forall i | 0 <= i < |c.es| :: s.out.reserved[i] == (s.pcs[i] >= 1) && s.out.stored[i] == (s.pcs[i] >= 2))
    && (c.symmetric ==> forall i | 0 <= i < |c.es| ::
          s.inn.reserved[i] == (s.pcs[i] >= 3) && s.inn.stored[i] == (s.pcs[i] >= 4))
  }

  ghost predicate LoadSized(c: LoadEnv, s: LoadState) {
    && LoadEnvOk(c) && |s.pcs| == |c.es|
    && SideSized(c.n, c.es, s.out) && SideSized(c.n, Reverse(c.es), s.inn)
  }

  /**
   * Task `i` in program order: reserve and store in the out-row of its source, then, if the graph
   * is symmetric, reserve and store in the in-row of its destination. A store outside the edge
   * array is no step at all; `LoadNeverStuck` shows that none is ever attempted.
   */
  ghost predicate LoadStep(c: LoadEnv, s: LoadState, s': LoadState, i: nat)
    requires LoadSized(c, s) && i < |c.es|
  {
    match s.pcs[i]
    case 0 => s' == LoadState(s.pcs[i := 1], Reserve(c.n, c.es, s.out, i), s.inn)
    case 1 =>
      && Address(c.outOff, c.n, c.es, s.out, i) < |c.es|
      && s' == LoadState(s.pcs[i := if c.symmetric then 2 else 4], Store(c.outOff, c.n, c.es, s.out, i), s.inn)
    case 2 => s' == LoadState(s.pcs[i := 3], s.out, Reserve(c.n, Reverse(c.es), s.inn, i))
    case 3 =>
      && c.symmetric && Address(c.inOff, c.n, Reverse(c.es), s.inn, i) < |c.es|
      && s' == LoadState(s.pcs[i := 4], s.out, Store(c.inOff, c.n, Reverse(c.es), s.inn, i))
    case _ => false
  }

  ghost predicate LoadNext(c: LoadEnv, s: LoadState, s': LoadState) {
    LoadSized(c, s) && exists i :: 0 <= i < |c.es| && LoadStep(c, s, s', i)
  }

  ghost predicate LoadTrace(c: LoadEnv, outMem: seq<nat>, inMem: seq<nat>, tr: seq<LoadState>) {
    && |tr| > 0 && tr[0] == LoadStart(c, outMem, inMem)
    && forall i | 0 <= i < |tr| - 1 :: LoadNext(c, tr[i], tr[i+1])
  }

  ghost predicate LoadDone(s: LoadState) {
    forall i | 0 <= i < |s.pcs| :: s.pcs[i] == 4
  }

  lemma LoadStartInv(c: LoadEnv, outMem: seq<nat>, inMem: seq<nat>)
    requires LoadEnvOk(c) && |outMem| == |inMem| == |c.es|
    ensures LoadInv(c, LoadStart(c, outMem, inMem))
  {
    SideStartInv(c.outOff, c.n, c.es, outMem);
    if c.symmetric {
      SideStartInv(c.inOff, c.n, Reverse(c.es), inMem);
    }
  }

  lemma LoadStepInv(c: LoadEnv, s: LoadState, s': LoadState, i: nat)
    requires LoadInv(c, s) && i < |c.es| && LoadStep(c, s, s', i)
    ensures LoadInv(c, s')
  {
    hide SideInv;
    match s.pcs[i]
    case 0 => ReserveInv(c.outOff, c.n, c.es, s.out, i);
    case 1 => StoreInv(c.outOff, c.n, c.es, s.out, i);
    case 2 => ReserveInv(c.inOff, c.n, Reverse(c.es), s.inn, i);
    case 3 => StoreInv(c.inOff, c.n, Reverse(c.es), s.inn, i);
    case _ =>
  }

  lemma {:induction false} LoadTraceInv(c: LoadEnv, outMem: seq<nat>, inMem: seq<nat>, tr: seq<LoadState>, k: nat)
    requires LoadEnvOk(c) && |outMem| == |inMem| == |c.es|
    requires LoadTrace(c, outMem, inMem, tr) && k < |tr|
    ensures LoadInv(c, tr[k])
  {
    if k == 0 {
      LoadStartInv(c, outMem, inMem);
    } else {
      LoadTraceInv(c, outMem, inMem, tr, k - 1);
      assert LoadNext(c, tr[k-1], tr[k]);
      var i :| 0 <= i < |c.es| && LoadStep(c, tr[k-1], tr[k], i);
      LoadStepInv(c, tr[k-1], tr[k], i);
    }
  }

  lemma LoadDoneResult(c: LoadEnv, s: LoadState)
    requires LoadInv(c, s) && LoadDone(s)
    ensures (forall a | 0 <= a < |c.es| :: s.out.writes[a] == 1) <==> Fits(c.n, c.es)
    ensures Fits(c.n, c.es) ==> Represents(Csr(c.outOff, s.out.mem), c.n, c.es)
    ensures c.symmetric ==>
      && ((forall a | 0 <= a < |c.es| :: s.inn.writes[a] == 1) <==> Fits(c.n, Reverse(c.es)))
      && (Fits(c.n, Reverse(c.es)) ==> Represents(Csr(c.inOff, s.inn.mem), c.n, Reverse(c.es)))
  {
    WrittenOnceExactly(c.outOff, c.n, c.es, s.out);
    if Fits(c.n, c.es) {
      SideResult(c.outOff, c.n, c.es, s.out);
    }
    if c.symmetric {
      WrittenOnceExactly(c.inOff, c.n, Reverse(c.es), s.inn);
      if Fits(c.n, Reverse(c.es)) {
        SideResult(c.inOff, c.n, Reverse(c.es), s.inn);
      }
    }
  }

  /**
   * `create_edges`, for every interleaving: each entry of the edge array is stored to exactly once
   * if and only if all degrees fit the 32-bit slot counters, and then both arrays are row layouts
   * of the edge list, so the in-rows are the transpose of the out-rows.
   */
  lemma LoadResult(c: LoadEnv, outMem: seq<nat>, inMem: seq<nat>, tr: seq<LoadState>)
    requires LoadEnvOk(c) && |outMem| == |inMem| == |c.es|
    requires LoadTrace(c, outMem, inMem, tr) && LoadDone(tr[|tr|-1])
    ensures var s := tr[|tr|-1];
      && ((forall a | 0 <= a < |s.out.writes| :: s.out.writes[a] == 1) <==> Fits(c.n, c.es))
      && (Fits(c.n, c.es) ==> Represents(Csr(c.outOff, s.out.mem), c.n, c.es))
      && (c.symmetric ==>
          && ((forall a | 0 <= a < |s.inn.writes| :: s.inn.writes[a] == 1) <==> Fits(c.n, Reverse(c.es)))
          && (Fits(c.n, Reverse(c.es)) ==> Represents(Csr(c.inOff, s.inn.mem), c.n, Reverse(c.es))))
  {
    LoadTraceInv(c, outMem, inMem, tr, |tr| - 1);
    LoadDoneResult(c, tr[|tr|-1]);
  }

  /** No schedule gets stuck before all tasks are over. */
  lemma LoadNeverStuck(c: LoadEnv, s: LoadState)
    requires LoadInv(c, s) && !LoadDone(s)
    ensures exists s' :: LoadNext(c, s, s')
  {
    var i :| 0 <= i < |s.pcs| && s.pcs[i] != 4;
    var s';
    match s.pcs[i] {
      case 0 =>
        s' := LoadState(s.pcs[i := 1], Reserve(c.n, c.es, s.out, i), s.inn);
      case 1 =>
        StoreInv(c.outOff, c.n, c.es, s.out, i);
        s' := LoadState(s.pcs[i := if c.symmetric then 2 else 4], Store(c.outOff, c.n, c.es, s.out, i), s.inn);
      case 2 =>
        s' := LoadState(s.pcs[i := 3], s.out, Reserve(c.n, Reverse(c.es), s.inn, i));
      case _ =>
        StoreInv(c.inOff, c.n, Reverse(c.es), s.inn, i);
        s' := LoadState(s.pcs[i := 4], s.out, Store(c.inOff, c.n, Reverse(c.es), s.inn, i));
    }
    assert LoadStep(c, s, s', i);
    assert LoadNext(c, s, s');
  }

  /** ... and none runs for ever: a run has at most four steps per edge. */
  lemma {:induction false} LoadRunsAreBounded(c: LoadEnv, outMem: seq<nat>, inMem: seq<nat>, tr: seq<LoadState>, k: nat)
    requires LoadEnvOk(c) && |outMem| == |inMem| == |c.es|
    requires LoadTrace(c, outMem, inMem, tr) && k < |tr|
    ensures k + Sum(Countdown(tr[k].pcs, 4)) <= |c.es| * 4
  {
    hide Countdown, LoadInv, Reserve, Store;
    if k == 0 {
      CountdownStart(|c.es|, 4);
    } else {
      LoadRunsAreBounded(c, outMem, inMem, tr, k - 1);
      assert LoadNext(c, tr[k-1], tr[k]);
      var i :| 0 <= i < |c.es| && LoadStep(c, tr[k-1], tr[k], i);
      CountdownStep(tr[k-1].pcs, 4, i, tr[k].pcs[i]);
    }
  }

  /** Every run can be continued until all edges are stored. */
  lemma {:induction false} CompleteLoad(c: LoadEnv, outMem: seq<nat>, inMem: seq<nat>, tr: seq<LoadState>)
    returns (full: seq<LoadState>)
    requires LoadEnvOk(c) && |outMem| == |inMem| == |c.es| && LoadTrace(c, outMem, inMem, tr)
    ensures LoadTrace(c, outMem, inMem, full) && LoadDone(full[|full|-1]) && tr <= full
    decreases |c.es| * 4 + 1 - |tr|
  {
    hide LoadNext, LoadInv, Countdown, Sum, LoadEnvOk;
    var s := tr[|tr|-1];
    LoadTraceInv(c, outMem, inMem, tr, |tr| - 1);
    LoadRunsAreBounded(c, outMem, inMem, tr, |tr| - 1);
    if LoadDone(s) {
      full := tr;
    } else {
      LoadNeverStuck(c, s);
      var s' :| LoadNext(c, s, s');
      full := CompleteLoad(c, outMem, inMem, tr + [s']);
    }
  }

  // ---- an edge list that does not fit ----

  /** `k` edges from vertex 0 to itself. */
  ghost function Loops(k: nat): (r: seq<Edge>)
    ensures |r| == k && InRange(r, 1)
  {
    seq(k, _ => Edge(0, 0))
  }

  lemma {:induction false} LoopsDegree(k: nat)
    ensures Degree(Loops(k), 0) == k
  {
    if k > 0 {
      LoopsDegree(k - 1);
      assert Loops(k)[..k-1] == Loops(k - 1);
    }
  }

  /** One edge too many for a 32-bit counter: whatever the schedule, some entry is not stored to exactly once. */
  lemma OneEdgeTooMany(c: LoadEnv, outMem: seq<nat>, inMem: seq<nat>, tr: seq<LoadState>)
    requires c.n == 1 && c.es == Loops(WORD + 1) && LoadEnvOk(c) && |outMem| == |inMem| == |c.es|
    requires LoadTrace(c, outMem, inMem, tr) && LoadDone(tr[|tr|-1])
    ensures !Fits(c.n, c.es)
    ensures var s := tr[|tr|-1];
      exists a :: 0 <= a < |s.out.writes| && s.out.writes[a] != 1
  {
    hide Degree, LoadTrace, LoadDone;
    LoopsDegree(WORD + 1);
    assert Degree(c.es, 0) > WORD;
    LoadResult(c, outMem, inMem, tr);
  }
}
