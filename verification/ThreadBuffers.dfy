/**
 * `thread_buffer`: a bounded buffer owned by one worker, and the transfer of its contents into a
 * shared buffer, which reserves a range with one fetch-and-add and then copies. `push` and
 * `transfer` check no bounds, so their preconditions are what callers have to guarantee.
 */
module ThreadBuffers {
  import opened Sums

  class ThreadBuffer {
    var buffer: array<nat>
    var capacity: nat
    var next: nat

    constructor (c: nat)
      ensures Valid() && capacity == c && Contents() == [] && fresh(buffer)
    {
      next := 0;
      buffer := new nat[c];
      capacity := c;
    }

    ghost predicate Valid()
      reads this
    {
      next <= capacity == buffer.Length
    }

    ghost function Contents(): seq<nat>
      requires Valid()
      reads this, buffer
    {
      buffer[..next]
    }

    method Clear()
      requires Valid()
      modifies this`next
      ensures Valid() && Contents() == []
    {
      next := 0;
    }

    method Push(id: nat)
      requires Valid() && next < capacity
      modifies this`next, buffer
      ensures Valid() && Contents() == old(Contents()) + [id]
    {
      buffer[next] := id;
      next := next + 1;
    }

    /** Without interference; any interleaving of transfers is treated below. */
    method Transfer(dst: ThreadBuffer)
      requires Valid() && dst.Valid() && dst != this && dst.buffer != buffer
      requires dst.next + next <= dst.capacity
      modifies this`next, dst`next, dst.buffer
      ensures Valid() && Contents() == []
      ensures dst.Valid() && dst.Contents() == old(dst.Contents()) + old(Contents())
    {
      if next == 0 { return; }
      var dstId := dst.next;
      dst.next := dst.next + next;
      for i := 0 to next
        invariant next == old(next) && dst.next == dstId + next
        invariant dst.buffer[..dstId] == old(dst.Contents())
        invariant dst.buffer[dstId..dstId + i] == buffer[..i]
      {
        dst.buffer[dstId + i] := buffer[i];
      }
      next := 0;
    }
  }

  // ---- concurrent transfers ----

  /**
   * Several buffers transferred into one at the same time. `pos` is the range a transfer has
   * reserved, `copied` is how far its memcpy has got, and `joined` remembers the reserved contents
   * in the order of the fetch-and-adds.
   */
  datatype Transfers = Transfers(next: nat, mem: seq<nat>, reserved: seq<bool>, pos: seq<nat>,
                                 copied: seq<nat>, joined: seq<nat>)

  ghost predicate TransferSized(sources: seq<seq<nat>>, cap: nat, s: Transfers) {
    |s.mem| == cap && |s.reserved| == |s.pos| == |s.copied| == |sources|
  }

  ghost function TransferStart(sources: seq<seq<nat>>, mem: seq<nat>): Transfers {
    var n := |sources|;
    Transfers(0, mem, seq(n, _ => false), seq(n, _ => 0), seq(n, _ => 0), [])
  }

  /** An empty buffer returns at once; any other reserves as many slots as it has entries. */
  ghost predicate ReserveRange(sources: seq<seq<nat>>, s: Transfers, s': Transfers, t: nat)
    requires t < |sources| == |s.pos| == |s.reserved|
  {
    && !s.reserved[t] && sources[t] != []
    && s' == s.(next := s.next + |sources[t]|, pos := s.pos[t := s.next],
                reserved := s.reserved[t := true], joined := s.joined + sources[t])
  }

  ghost predicate CopyOne(sources: seq<seq<nat>>, s: Transfers, s': Transfers, t: nat)
    requires t < |sources| == |s.pos| == |s.reserved| == |s.copied|
  {
    && s.reserved[t] && s.copied[t] < |sources[t]| && s.pos[t] + s.copied[t] < |s.mem|
    && s' == s.(mem := s.mem[s.pos[t] + s.copied[t] := sources[t][s.copied[t]]],
                copied := s.copied[t := s.copied[t] + 1])
  }

  ghost predicate TransferNext(sources: seq<seq<nat>>, cap: nat, s: Transfers, s': Transfers) {
    && TransferSized(sources, cap, s)
    && exists t :: 0 <= t < |sources| && (ReserveRange(sources, s, s', t) || CopyOne(sources, s, s', t))
  }

  ghost predicate TransferTrace(sources: seq<seq<nat>>, mem: seq<nat>, tr: seq<Transfers>) {
    && |tr| > 0 && tr[0] == TransferStart(sources, mem)
    && forall i | 0 <= i < |tr| - 1 :: TransferNext(sources, |mem|, tr[i], tr[i+1])
  }

  ghost predicate TransfersDone(sources: seq<seq<nat>>, s: Transfers) {
    |s.copied| == |sources| && forall t | 0 <= t < |sources| :: s.copied[t] == |sources[t]|
  }

  /** Position `p` of the destination was reserved for source `t`. */
  ghost predicate Owns(sources: seq<seq<nat>>, s: Transfers, t: nat, p: nat)
    requires t < |sources| == |s.pos| == |s.reserved|
  {
    s.reserved[t] && s.pos[t] <= p < s.pos[t] + |sources[t]|
  }

  ghost predicate Owned(sources: seq<seq<nat>>, s: Transfers, p: nat)
    requires |sources| == |s.pos| == |s.reserved|
  {
    exists t :: 0 <= t < |sources| && Owns(sources, s, t, p)
  }

  ghost function ReservedCopies(sources: seq<seq<nat>>, s: Transfers, d: nat): (r: seq<nat>)
    requires |s.reserved| == |sources|
    ensures |r| == |sources|
  {
    seq(|sources|, t requires 0 <= t < |sources| => if s.reserved[t] then multiset(sources[t])[d] else 0)
  }

  ghost predicate TransferInv(sources: seq<seq<nat>>, cap: nat, s: Transfers) {
    && TransferSized(sources, cap, s) && s.next == |s.joined|
    // the reserved ranges are disjoint, contiguous, and hold what will be copied
    && (forall t, u, p | 0 <= t < |sources| && 0 <= u < |sources| && 0 <= p
          && Owns(sources, s, t, p) && Owns(sources, s, u, p) :: t == u)
    && (forall p: nat | p < s.next :: Owned(sources, s, p))
    && (forall t, p: nat | 0 <= t < |sources| && Owns(sources, s, t, p) ::
          p < s.next && s.joined[p] == sources[t][p - s.pos[t]])
    && (forall d: nat :: multiset(s.joined)[d] == Sum(ReservedCopies(sources, s, d)))
    // what has been copied
    && (forall t | 0 <= t < |sources| :: s.copied[t] <= |sources[t]| && (s.copied[t] > 0 ==> s.reserved[t]))
    && (forall t, p: nat | 0 <= t < |sources| && Owns(sources, s, t, p) && p < s.pos[t] + s.copied[t] ::
          p < cap && s.mem[p] == s.joined[p])
  }

  lemma TransferStartInv(sources: seq<seq<nat>>, mem: seq<nat>)
    ensures TransferInv(sources, |mem|, TransferStart(sources, mem))
  {
    forall d: nat ensures Sum(ReservedCopies(sources, TransferStart(sources, mem), d)) == 0 {
      SumConstant(ReservedCopies(sources, TransferStart(sources, mem), d), 0);
    }
  }

  lemma ReserveOwned(sources: seq<seq<nat>>, cap: nat, s: Transfers, s': Transfers, t: nat)
    requires TransferInv(sources, cap, s) && t < |sources| && ReserveRange(sources, s, s', t)
    ensures forall u, p: nat | 0 <= u < |sources| ::
              Owns(sources, s', u, p) <==> if u == t then s.next <= p < s'.next else Owns(sources, s, u, p)
    ensures forall p: nat | p < s'.next :: Owned(sources, s', p)
  {
    forall p: nat | p < s'.next ensures Owned(sources, s', p) {
      if p < s.next {
        assert Owned(sources, s, p);
        var u :| 0 <= u < |sources| && Owns(sources, s, u, p);
        assert Owns(sources, s', u, p);
      } else {
        assert Owns(sources, s', t, p);
      }
    }
  }

  lemma ReserveCounts(sources: seq<seq<nat>>, cap: nat, s: Transfers, s': Transfers, t: nat, d: nat)
    requires TransferInv(sources, cap, s) && t < |sources| && ReserveRange(sources, s, s', t)
    ensures multiset(s'.joined)[d] == Sum(ReservedCopies(sources, s', d))
  {
    SumUpdate(ReservedCopies(sources, s, d), ReservedCopies(sources, s', d), t);
  }

  lemma ReserveRangeInv(sources: seq<seq<nat>>, cap: nat, s: Transfers, s': Transfers, t: nat)
    requires TransferInv(sources, cap, s) && t < |sources| && ReserveRange(sources, s, s', t)
    ensures TransferInv(sources, cap, s')
  {
    hide Sum, ReservedCopies, Owned;
    ReserveOwned(sources, cap, s, s', t);
    forall d: nat ensures multiset(s'.joined)[d] == Sum(ReservedCopies(sources, s', d)) {
      ReserveCounts(sources, cap, s, s', t, d);
    }
  }

  lemma CopyOwned(sources: seq<seq<nat>>, cap: nat, s: Transfers, s': Transfers, t: nat)
    requires TransferInv(sources, cap, s) && t < |sources| && CopyOne(sources, s, s', t)
    ensures forall u, p: nat | 0 <= u < |sources| :: Owns(sources, s', u, p) <==> Owns(sources, s, u, p)
    ensures forall p: nat | p < s'.next :: Owned(sources, s', p)
    ensures Owns(sources, s, t, s.pos[t] + s.copied[t])
  {
    forall p: nat | p < s'.next ensures Owned(sources, s', p) {
      assert Owned(sources, s, p);
      var u :| 0 <= u < |sources| && Owns(sources, s, u, p);
      assert Owns(sources, s', u, p);
    }
  }

  lemma CopyOneInv(sources: seq<seq<nat>>, cap: nat, s: Transfers, s': Transfers, t: nat)
    requires TransferInv(sources, cap, s) && t < |sources| && CopyOne(sources, s, s', t)
    ensures TransferInv(sources, cap, s')
  {
    hide Sum, Owned;
    CopyOwned(sources, cap, s, s', t);
    forall d: nat ensures multiset(s'.joined)[d] == Sum(ReservedCopies(sources, s', d)) {
      assert ReservedCopies(sources, s', d) == ReservedCopies(sources, s, d);
    }
  }

  lemma {:induction false} TransferTraceInv(sources: seq<seq<nat>>, mem: seq<nat>, tr: seq<Transfers>, n: nat)
    requires TransferTrace(sources, mem, tr) && n < |tr|
    ensures TransferInv(sources, |mem|, tr[n])
  {
    if n == 0 {
      TransferStartInv(sources, mem);
    } else {
      TransferTraceInv(sources, mem, tr, n - 1);
      var s, s' := tr[n-1], tr[n];
      assert TransferNext(sources, |mem|, s, s');
      var t :| 0 <= t < |sources| && (ReserveRange(sources, s, s', t) || CopyOne(sources, s, s', t));
      if ReserveRange(sources, s, s', t) {
        ReserveRangeInv(sources, |mem|, s, s', t);
      } else {
        CopyOneInv(sources, |mem|, s, s', t);
      }
    }
  }

  lemma CopiedAt(sources: seq<seq<nat>>, cap: nat, s: Transfers, p: nat)
    requires TransferInv(sources, cap, s) && TransfersDone(sources, s) && p < s.next
    ensures p < cap && s.mem[p] == s.joined[p]
  {
    assert Owned(sources, s, p);
    var t :| 0 <= t < |sources| && Owns(sources, s, t, p);
  }

  /**
   * Any interleaving of transfers into an empty buffer: afterwards its contents are a permutation
   * of everything the sources held.
   */
  lemma TransfersResult(sources: seq<seq<nat>>, mem: seq<nat>, tr: seq<Transfers>)
    requires TransferTrace(sources, mem, tr) && TransfersDone(sources, tr[|tr|-1])
    ensures var s := tr[|tr|-1];
      && s.next <= |s.mem| == |mem|
      && multiset(s.mem[..s.next]) == multiset(Concat(sources))
  {
    var s := tr[|tr|-1];
    TransferTraceInv(sources, mem, tr, |tr| - 1);
    forall p: nat | p < s.next ensures p < |s.mem| && s.mem[p] == s.joined[p] {
      CopiedAt(sources, |mem|, s, p);
    }
    if s.next > |mem| {
      CopiedAt(sources, |mem|, s, |mem|);
    }
    assert s.mem[..s.next] == s.joined;
    forall d: nat ensures multiset(s.joined)[d] == multiset(Concat(sources))[d] {
      ConcatCount(sources, d);
      assert ReservedCopies(sources, s, d) == Copies(sources, d);
    }
  }

  /** If everything fits, the reserved ranges stay inside the destination. */
  lemma ReservedInside(sources: seq<seq<nat>>, cap: nat, s: Transfers)
    requires TransferInv(sources, cap, s) && |Concat(sources)| <= cap
    ensures s.next <= cap
    ensures forall t, p: nat | 0 <= t < |sources| && Owns(sources, s, t, p) :: p < cap
  {
    forall d: nat ensures multiset(s.joined)[d] <= multiset(Concat(sources))[d] {
      ConcatCount(sources, d);
      SumMonotone(ReservedCopies(sources, s, d), Copies(sources, d));
    }
    SubMultisetSize(s.joined, Concat(sources));
  }

  /** ... at every reachable state of every interleaving. */
  lemma TransfersStayInside(sources: seq<seq<nat>>, mem: seq<nat>, tr: seq<Transfers>, n: nat)
    requires TransferTrace(sources, mem, tr) && n < |tr| && |Concat(sources)| <= |mem|
    ensures TransferSized(sources, |mem|, tr[n]) && tr[n].next <= |mem|
    ensures forall t, p: nat | 0 <= t < |sources| && Owns(sources, tr[n], t, p) :: p < |mem|
  {
    TransferTraceInv(sources, mem, tr, n);
    ReservedInside(sources, |mem|, tr[n]);
  }

  /** If everything fits, no transfer gets stuck. */
  lemma TransferNeverStuck(sources: seq<seq<nat>>, cap: nat, s: Transfers)
    requires TransferInv(sources, cap, s) && |Concat(sources)| <= cap && !TransfersDone(sources, s)
    ensures s.next <= cap
    ensures exists s' :: TransferNext(sources, cap, s, s')
  {
    ReservedInside(sources, cap, s);
    var t :| 0 <= t < |sources| && s.copied[t] != |sources[t]|;
    var q := s.pos[t] + s.copied[t];
    var s' := if s.reserved[t]
      then s.(mem := if q < |s.mem| then s.mem[q := sources[t][s.copied[t]]] else s.mem,
              copied := s.copied[t := s.copied[t] + 1])
      else s.(next := s.next + |sources[t]|, pos := s.pos[t := s.next],
              reserved := s.reserved[t := true], joined := s.joined + sources[t]);
    if s.reserved[t] {
      assert Owns(sources, s, t, q);
      assert CopyOne(sources, s, s', t);
    } else {
      assert ReserveRange(sources, s, s', t);
    }
    assert TransferNext(sources, cap, s, s');
  }

  lemma SubMultisetSize(a: seq<nat>, b: seq<nat>)
    requires forall d: nat :: multiset(a)[d] <= multiset(b)[d]
    ensures |a| <= |b|
  {
    var rest := multiset(b) - multiset(a);
    assert multiset(b) == multiset(a) + rest;
    assert |multiset(b)| == |multiset(a)| + |rest|;
    assert |multiset(a)| == |a| && |multiset(b)| == |b|;
  }

  /** Steps that are left to each transfer: its reservation and its copies. */
  ghost function TransferLeft(sources: seq<seq<nat>>, s: Transfers): (r: seq<nat>)
    requires |s.reserved| == |s.copied| == |sources|
    ensures |r| == |sources|
  {
    seq(|sources|, t requires 0 <= t < |sources| =>
      (if s.reserved[t] then 0 else 1) + if s.copied[t] <= |sources[t]| then |sources[t]| - s.copied[t] else 0)
  }

  lemma TransferDecreases(sources: seq<seq<nat>>, cap: nat, s: Transfers, s': Transfers)
    requires TransferSized(sources, cap, s) && TransferNext(sources, cap, s, s')
    ensures TransferSized(sources, cap, s') && Sum(TransferLeft(sources, s')) < Sum(TransferLeft(sources, s))
  {
    var t :| 0 <= t < |sources| && (ReserveRange(sources, s, s', t) || CopyOne(sources, s, s', t));
    SumUpdate(TransferLeft(sources, s), TransferLeft(sources, s'), t);
  }

  lemma {:induction false} TransferLeftAtStart(sources: seq<seq<nat>>, mem: seq<nat>)
    ensures Sum(TransferLeft(sources, TransferStart(sources, mem))) == |Concat(sources)| + |sources|
  {
    if |sources| > 0 {
      var m := |sources| - 1;
      TransferLeftAtStart(sources[..m], mem);
      assert TransferLeft(sources, TransferStart(sources, mem))[..m]
          == TransferLeft(sources[..m], TransferStart(sources[..m], mem));
    }
  }

  /** No interleaving runs for ever: there is one step per buffered id and one per buffer. */
  lemma {:induction false} TransferRunsAreBounded(sources: seq<seq<nat>>, mem: seq<nat>, tr: seq<Transfers>, n: nat)
    requires TransferTrace(sources, mem, tr) && n < |tr|
    ensures TransferSized(sources, |mem|, tr[n])
    ensures n + Sum(TransferLeft(sources, tr[n])) <= |Concat(sources)| + |sources|
  {
    hide TransferLeft, TransferNext;
    if n == 0 {
      TransferLeftAtStart(sources, mem);
    } else {
      TransferRunsAreBounded(sources, mem, tr, n - 1);
      assert TransferNext(sources, |mem|, tr[n-1], tr[n]);
      TransferDecreases(sources, |mem|, tr[n-1], tr[n]);
    }
  }

  /** If everything fits, every run can be continued until all buffers are transferred. */
  lemma {:induction false} CompleteTransfers(sources: seq<seq<nat>>, mem: seq<nat>, tr: seq<Transfers>)
    returns (full: seq<Transfers>)
    requires TransferTrace(sources, mem, tr) && |Concat(sources)| <= |mem|
    ensures TransferTrace(sources, mem, full) && TransfersDone(sources, full[|full|-1]) && tr <= full
    decreases |Concat(sources)| + |sources| + 1 - |tr|
  {
    hide TransferNext, TransferInv, TransferLeft, Sum, Concat;
    var s := tr[|tr|-1];
    TransferTraceInv(sources, mem, tr, |tr| - 1);
    TransferRunsAreBounded(sources, mem, tr, |tr| - 1);
    if TransfersDone(sources, s) {
      full := tr;
    } else {
      TransferNeverStuck(sources, |mem|, s);
      var s' :| TransferNext(sources, |mem|, s, s');
      full := CompleteTransfers(sources, mem, tr + [s']);
    }
  }
}
