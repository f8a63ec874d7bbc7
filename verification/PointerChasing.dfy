/**
 * The pointer-chasing ring: `create_random` links the entries of a buffer in the order of a shuffled
 * index array, and the two chases follow the links.
 */
module PointerChasing {
  import opened Permutations

  /** What an entry's `next` can hold: the two plain values of `cas_chase_fail`, or the address of an entry. */
  datatype Ptr = Null | One | At(index: nat)

  /** Every entry points to the one after it in `order`, the last one to the first. */
  ghost predicate Ring(next: seq<Ptr>, order: seq<nat>) {
    && |next| > 0 && Permutes(order, |next|)
    && forall k | 0 <= k < |order| :: next[order[k]] == At(order[if k + 1 < |order| then k + 1 else 0])
  }

  // ---- following the links ----

  /** `p` after `count` loads. */
  ghost function Chase(next: seq<Ptr>, p: Ptr, count: nat): Ptr {
    if count == 0 then p
    else
      var q := Chase(next, p, count - 1);
      if q.At? && q.index < |next| then next[q.index] else Null
  }

  /** Position `x` of the ring, counted on past its end. */
  function Around(x: nat, len: nat): (r: nat)
    requires len > 0
    ensures r < len
  {
    x % len
  }

  lemma NoMultiple(d: int, len: int)
    requires len > 0 && -len < d * len < len
    ensures d == 0
  {
    assert d > 0 ==> d * len >= len;
    assert d < 0 ==> d * len <= -len;
  }

  lemma ModUnique(x: nat, q: nat, r: nat, len: nat)
    requires r < len && x == q * len + r
    ensures x / len == q && x % len == r
  {
    var d := x / len - q;
    assert x == (x / len) * len + x % len;
    assert d * len == (x / len) * len - q * len;
    NoMultiple(d, len);
  }

  lemma AroundSmall(x: nat, len: nat)
    requires 0 < len && x < len + len
    ensures Around(x, len) == if x < len then x else x - len
  {
    ModUnique(x, if x < len then 0 else 1, if x < len then x else x - len, len);
  }

  lemma AroundNext(x: nat, len: nat)
    requires len > 0
    ensures Around(x + 1, len) == if Around(x, len) + 1 < len then Around(x, len) + 1 else 0
  {
    var q, r := x / len, x % len;
    assert x == q * len + r;
    assert (q + 1) * len == q * len + len;
    ModUnique(x + 1, if r + 1 < len then q else q + 1, if r + 1 < len then r + 1 else 0, len);
  }

  /** `count` loads lead `count` positions further along the ring. */
  lemma {:induction false} ChaseAdvances(next: seq<Ptr>, order: seq<nat>, k: nat, count: nat)
    requires Ring(next, order) && k < |order|
    ensures Chase(next, At(order[k]), count) == At(order[Around(k + count, |order|)])
  {
    hide Around;
    if count == 0 {
      AroundSmall(k, |order|);
    } else {
      ChaseAdvances(next, order, k, count - 1);
      AroundNext(k + count - 1, |order|);
    }
  }

  lemma SamePosition(k: nat, count: nat, len: nat)
    requires k < len
    ensures Around(k + count, len) == k <==> count % len == 0
  {
    var q, r := count / len, count % len;
    assert count == q * len + r;
    assert (q + 1) * len == q * len + len;
    ModUnique(k + count, if k + r < len then q else q + 1, if k + r < len then k + r else k + r - len, len);
  }

  /** The ring is one cycle: from any entry, the chase is back after every `len` loads and at no other time. */
  lemma RingReturns(next: seq<Ptr>, order: seq<nat>, e: nat, count: nat)
    requires Ring(next, order) && e < |next|
    ensures Chase(next, At(e), count) == At(e) <==> count % |next| == 0
  {
    hide Around;
    var k := PositionOf(order, |next|, e);
    ChaseAdvances(next, order, k, count);
    SamePosition(k, count, |next|);
    var j := Around(k + count, |next|);
    assert order[j] == order[k] ==> j == k;
  }

  /** From any entry every entry is met within the first `len` loads. */
  lemma RingVisitsAll(next: seq<Ptr>, order: seq<nat>, e: nat, f: nat) returns (count: nat)
    requires Ring(next, order) && e < |next| && f < |next|
    ensures count < |next| && Chase(next, At(e), count) == At(f)
  {
    hide Around;
    var k, j := PositionOf(order, |next|, e), PositionOf(order, |next|, f);
    count := if k <= j then j - k else j - k + |next|;
    ChaseAdvances(next, order, k, count);
    AroundSmall(k + count, |next|);
  }

  /** ... and only once. */
  lemma RingVisitsOnce(next: seq<Ptr>, order: seq<nat>, e: nat, a: nat, b: nat)
    requires Ring(next, order) && e < |next| && a < b < |next|
    ensures Chase(next, At(e), a) != Chase(next, At(e), b)
  {
    hide Around;
    var k, n := PositionOf(order, |next|, e), |next|;
    ChaseAdvances(next, order, k, a);
    ChaseAdvances(next, order, k, b);
    AroundSmall(k + a, n);
    AroundSmall(k + b, n);
  }

  // ---- building the ring ----

  lemma RoundUp(size: nat, entry: nat)
    requires entry > 0
    ensures var len := (size + entry - 1) / entry;
      && size <= len * entry < size + entry && (len * entry) / entry == len
      && (size > 0 ==> len > 0)
  {
    var len := (size + entry - 1) / entry;
    assert size + entry - 1 == len * entry + (size + entry - 1) % entry;
    if len == 0 {
      assert len * entry == 0;
    }
    ModUnique(len * entry, len, 0, entry);
  }

  /**
   * `create_random` for a buffer of at least one byte and entries of `entry` bytes. `shuffled` is what the
   * shuffle makes of the index array.
   */
  method CreateRandom(size: nat, entry: nat, shuffle: bool, shuffled: seq<nat>)
    returns (buffer: array<Ptr>, size': nat, len: nat, ghost order: seq<nat>)
    requires size > 0 && entry > 0
    requires Permutes(shuffled, (size + entry - 1) / entry)
    ensures fresh(buffer) && buffer.Length == len
    ensures size <= size' < size + entry && size' == len * entry
    ensures Ring(buffer[..], order) && (order == if shuffle then shuffled else Identity(len))
    ensures !shuffle ==> forall k | 0 <= k < len :: buffer[k] == At(if k + 1 < len then k + 1 else 0)
    ensures shuffle ==> forall k | 0 <= k < len ::
      buffer[shuffled[k]] == At(if k + 1 < len then shuffled[k + 1] else shuffled[0])
  {
    RoundUp(size, entry);
    size' := (size + entry - 1) / entry * entry;
    len := size' / entry;
    buffer := new Ptr[len];
    var indices := new nat[len];
    for i := 0 to len
      invariant forall k | 0 <= k < i :: indices[k] == k
    {
      indices[i] := i;
    }
    PermutesMultiset(shuffled, len);
    if shuffle {
      forall i | 0 <= i < len {
        indices[i] := shuffled[i];
      }
    }
    order := if shuffle then shuffled else Identity(len);
    assert indices[..] == order;
    LinkEntries(buffer, indices);
    if !shuffle {
      forall k | 0 <= k < len ensures buffer[k] == At(if k + 1 < len then k + 1 else 0) {
        assert buffer[..][order[k]] == At(order[if k + 1 < |order| then k + 1 else 0]);
      }
    }
  }

  /** The linking loop and the closing link. */
  method LinkEntries(buffer: array<Ptr>, indices: array<nat>)
    requires buffer.Length > 0 && Permutes(indices[..], buffer.Length)
    modifies buffer
    ensures Ring(buffer[..], indices[..])
  {
    var len := indices.Length;
    for i := 1 to len
      invariant forall k | 0 <= k < i - 1 :: buffer[indices[k]] == At(indices[k + 1])
    {
      buffer[indices[i - 1]] := At(indices[i]);
    }
    buffer[indices[len - 1]] := At(indices[0]);
  }

  // ---- the chases ----

  lemma StillInside(next: seq<Ptr>, order: seq<nat>, count: nat)
    requires Ring(next, order)
    ensures var p := Chase(next, At(0), count); p.At? && p.index < |next|
  {
    var k := PositionOf(order, |next|, 0);
    ChaseAdvances(next, order, k, count);
  }

  /** `read_chase`, from the first entry of the buffer; the pointer it ends with is returned here. */
  method ReadChase(buffer: array<Ptr>, count: nat, ghost order: seq<nat>) returns (p: Ptr)
    requires Ring(buffer[..], order)
    ensures p.At? && p.index < buffer.Length
    ensures p == At(order[(PositionOf(order, buffer.Length, 0) + count) % buffer.Length])
  {
    p := At(0);
    StillInside(buffer[..], order, 0);
    for i := 0 to count
      invariant p == Chase(buffer[..], At(0), i) && p.At? && p.index < buffer.Length
    {
      p := buffer[p.index];
      StillInside(buffer[..], order, i + 1);
    }
    ChaseAdvances(buffer[..], order, PositionOf(order, buffer.Length, 0), count);
  }

  /** `__sync_val_compare_and_swap` on an entry. */
  method CompareAndSwap(buffer: array<Ptr>, i: nat, oldV: Ptr, newV: Ptr) returns (seen: Ptr)
    requires i < buffer.Length
    modifies buffer
    ensures seen == old(buffer[i])
    ensures buffer[..] == if seen == oldV then old(buffer[..])[i := newV] else old(buffer[..])
  {
    seen := buffer[i];
    if seen == oldV {
      buffer[i] := newV;
    }
  }

  /** `cas_chase_fail`: no entry of a ring is null, so that no swap succeeds and nothing is written. */
  method CasChaseFail(buffer: array<Ptr>, count: nat, ghost order: seq<nat>) returns (p: Ptr)
    requires Ring(buffer[..], order)
    modifies buffer
    ensures buffer[..] == old(buffer[..])
    ensures p == At(order[(PositionOf(order, buffer.Length, 0) + count) % buffer.Length])
  {
    ghost var next := buffer[..];
    p := At(0);
    StillInside(next, order, 0);
    for i := 0 to count
      invariant buffer[..] == next
      invariant p == Chase(next, At(0), i) && p.At? && p.index < buffer.Length
    {
      StillInside(next, order, i + 1);
      assert next[p.index] == Chase(next, At(0), i + 1);
      p := CompareAndSwap(buffer, p.index, Null, One);
    }
    ChaseAdvances(next, order, PositionOf(order, buffer.Length, 0), count);
  }
}
