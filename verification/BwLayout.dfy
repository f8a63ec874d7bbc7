/** How `create_thread_info` lays the blocks of all threads out over the benchmark buffer. */
module BwLayout {

  datatype AccessMode = Grouped | Interleaved

  /** Addresses are offsets from the start of the buffer. */
  datatype Info = Info(start: nat, end: nat, stride: nat)

  datatype Result<T> = Ok(value: T) | Die(message: string)

  /** The part of a buffer of `size` bytes that belongs to one thread, in blocks of `access` bytes. */
  function AccessCount(size: nat, threads: nat, access: nat): nat
    requires threads > 0 && access > 0
  {
    size / threads / access
  }

  lemma DivFloor(x: nat, d: nat, q: nat)
    requires d > 0
    ensures x / d >= q <==> x >= d * q
  {
    assert x == d * (x / d) + x % d;
    if x / d >= q {
      Multiply(d, q, x / d);
    } else {
      Multiply(d, x / d + 1, q);
    }
  }

  lemma Multiply(d: nat, a: nat, b: nat)
    requires a <= b
    ensures d * a <= d * b && a * d <= b * d
  {
    assert d * b == d * a + d * (b - a);
  }

  /** There is no block for a thread exactly when the buffer is too small to give one to each. */
  lemma NoAccessesIff(size: nat, threads: nat, access: nat)
    requires threads > 0 && access > 0
    ensures AccessCount(size, threads, access) == 0 <==> size < threads * access
  {
    DivFloor(size / threads, access, 1);
    DivFloor(size, threads, access);
  }

  /** The count is the greatest number of accesses that every thread can have. */
  lemma AccessCountIsGreatest(size: nat, threads: nat, access: nat)
    requires threads > 0 && access > 0
    ensures var count := AccessCount(size, threads, access);
      threads * access * count <= size < threads * access * (count + 1)
  {
    var count := AccessCount(size, threads, access);
    forall q: nat ensures count >= q <==> size >= threads * access * q {
      DivFloor(size / threads, access, q);
      DivFloor(size, threads, access * q);
      Associate(threads, access, q);
    }
    assert !(count >= count + 1);
  }

  lemma Associate(a: nat, b: nat, c: nat)
    ensures a * (b * c) == a * b * c
  {
  }

  function InfoOf(size: nat, threads: nat, access: nat, mode: AccessMode, i: nat): Info
    requires threads > 0
  {
    var partition := size / threads;
    match mode
    case Grouped => Info(i * partition, (i + 1) * partition, access)
    case Interleaved => Info(i * access, size + i * access, threads * access)
  }

  /** The addresses of thread `i`, written out for both layouts; `partition` is the thread's share of the buffer. */
  lemma InfoMeans(size: nat, threads: nat, access: nat, mode: AccessMode, i: nat, partition: nat)
    requires threads > 0 && partition == size / threads
    ensures threads * partition <= size < threads * (partition + 1)
    ensures InfoOf(size, threads, access, mode, i) ==
            if mode.Grouped? then Info(i * partition, (i + 1) * partition, access)
            else Info(i * access, size + i * access, threads * access)
  {
    DivFloor(size, threads, partition);
    DivFloor(size, threads, partition + 1);
  }

  /** The setup loop. */
  method FillInfos(infos: array<Info>, size: nat, threads: nat, access: nat, mode: AccessMode, partition: nat)
    requires infos.Length == threads
    modifies infos
    ensures forall i | 0 <= i < threads ::
      infos[i] == (if mode.Grouped? then Info(i * partition, (i + 1) * partition, access)
                   else Info(i * access, size + i * access, threads * access))
  {
    for i := 0 to threads
      invariant forall k | 0 <= k < i ::
        infos[k] == (if mode.Grouped? then Info(k * partition, (k + 1) * partition, access)
                     else Info(k * access, size + k * access, threads * access))
    {
      if mode == Grouped {
        infos[i] := Info(i * partition, (i + 1) * partition, access);
      } else {
        infos[i] := Info(i * access, size + i * access, threads * access);
      }
    }
  }

  /** `create_thread_info`, without thread attributes and private buffers. */
  method CreateThreadInfo(size: nat, threads: nat, access: nat, mode: AccessMode)
    returns (r: Result<array<Info>>, accessCount: nat)
    requires threads > 0 && access > 0
    ensures accessCount == AccessCount(size, threads, access)
    ensures threads * access * accessCount <= size < threads * access * (accessCount + 1)
    ensures r.Die? <==> size < threads * access
    ensures r.Ok? ==>
              && accessCount > 0 && fresh(r.value) && r.value.Length == threads
              && forall i | 0 <= i < threads :: r.value[i] == InfoOf(size, threads, access, mode, i)
  {
    hide InfoOf;
    AccessCountIsGreatest(size, threads, access);
    NoAccessesIff(size, threads, access);
    var infos := new Info[threads](_ => Info(0, 0, 0));
    var partition := size / threads;
    accessCount := partition / access;
    if accessCount == 0 {
      return Die("access_count is 0"), accessCount;
    }
    FillInfos(infos, size, threads, access, mode, partition);
    forall i | 0 <= i < threads ensures infos[i] == InfoOf(size, threads, access, mode, i) {
      InfoMeans(size, threads, access, mode, i, partition);
    }
    r := Ok(infos);
  }

  // ---- the blocks ----

  ghost predicate BlockOk(size: nat, threads: nat, access: nat, t: nat, loc: nat) {
    threads > 0 && access > 0 && t < threads && loc < AccessCount(size, threads, access)
  }

  lemma GroupedInside(size: nat, threads: nat, access: nat, t: nat, loc: nat)
    requires BlockOk(size, threads, access, t, loc)
    ensures var p := size / threads; var a := t * p + loc * access;
      t * p <= a && a + access <= (t + 1) * p <= size
  {
    var p := size / threads;
    DivFloor(p, access, loc + 1);
    DivFloor(size, threads, p);
    Multiply(p, t + 1, threads);
    assert access * (loc + 1) == loc * access + access;
    assert (t + 1) * p == t * p + p;
  }

  /** Blocks are numbered round-robin over the threads. */
  lemma InterleavedAddress(size: nat, threads: nat, access: nat, t: nat, loc: nat)
    requires BlockOk(size, threads, access, t, loc)
    ensures t * access + loc * (threads * access) == (loc * threads + t) * access
    ensures (loc * threads + t + 1) * access <= size
  {
    var p, q := size / threads, loc * threads + t + 1;
    assert loc * (threads * access) == (loc * threads) * access;
    assert (loc * threads + t) * access == (loc * threads) * access + t * access;
    DivFloor(p, access, loc + 1);
    DivFloor(size, threads, access * (loc + 1));
    assert q <= (loc + 1) * threads;
    Multiply(access, q, (loc + 1) * threads);
    Regroup(access, loc + 1, threads);
  }

  lemma Regroup(a: nat, b: nat, c: nat)
    ensures a * (b * c) == c * (a * b) == (b * c) * a
  {
  }

  /**
   * The block at `base + loc*s`, as the random access loops compute it, lies inside the buffer and between
   * the thread's `start` and `end`, for either layout.
   */
  lemma BlocksInside(size: nat, threads: nat, access: nat, mode: AccessMode, t: nat, loc: nat)
    requires BlockOk(size, threads, access, t, loc)
    ensures var info := InfoOf(size, threads, access, mode, t); var a := info.start + loc * info.stride;
      a + access <= size && info.start <= a && a + access <= info.end
  {
    match mode
    case Grouped => GroupedInside(size, threads, access, t, loc);
    case Interleaved =>
      InterleavedAddress(size, threads, access, t, loc);
      assert (loc * threads + t + 1) * access == (loc * threads + t) * access + access;
  }

  lemma Multiples(a: nat, b: nat, access: nat)
    requires a != b
    ensures a * access + access <= b * access || b * access + access <= a * access
  {
    assert (a + 1) * access == a * access + access && (b + 1) * access == b * access + access;
    if a < b {
      Multiply(access, a + 1, b);
    } else {
      Multiply(access, b + 1, a);
    }
  }

  lemma GroupedDisjoint(size: nat, threads: nat, access: nat, t: nat, loc: nat, t': nat, loc': nat)
    requires BlockOk(size, threads, access, t, loc) && BlockOk(size, threads, access, t', loc')
    requires (t, loc) != (t', loc')
    ensures var p := size / threads; var a, a' := t * p + loc * access, t' * p + loc' * access;
      a + access <= a' || a' + access <= a
  {
    var p := size / threads;
    GroupedInside(size, threads, access, t, loc);
    GroupedInside(size, threads, access, t', loc');
    if t < t' {
      Multiply(p, t + 1, t');
    } else if t' < t {
      Multiply(p, t' + 1, t);
    } else {
      Multiples(loc, loc', access);
    }
  }

  lemma RoundRobin(threads: nat, t: nat, loc: nat, t': nat, loc': nat)
    requires t < threads && t' < threads && (t, loc) != (t', loc')
    ensures loc * threads + t != loc' * threads + t'
  {
    if loc < loc' {
      Multiply(threads, loc + 1, loc');
      assert (loc + 1) * threads == loc * threads + threads;
    } else if loc' < loc {
      Multiply(threads, loc' + 1, loc);
      assert (loc' + 1) * threads == loc' * threads + threads;
    }
  }

  /** Different threads, and different accesses of one thread, never share a byte. */
  lemma BlocksDisjoint(size: nat, threads: nat, access: nat, mode: AccessMode, t: nat, loc: nat, t': nat, loc': nat)
    requires BlockOk(size, threads, access, t, loc) && BlockOk(size, threads, access, t', loc')
    requires (t, loc) != (t', loc')
    ensures var info, info' := InfoOf(size, threads, access, mode, t), InfoOf(size, threads, access, mode, t');
      var a, a' := info.start + loc * info.stride, info'.start + loc' * info'.stride;
      a + access <= a' || a' + access <= a
  {
    match mode
    case Grouped => GroupedDisjoint(size, threads, access, t, loc, t', loc');
    case Interleaved =>
      InterleavedAddress(size, threads, access, t, loc);
      InterleavedAddress(size, threads, access, t', loc');
      RoundRobin(threads, t, loc, t', loc');
      Multiples(loc * threads + t, loc' * threads + t', access);
  }

  /** `lehmer64()%access_count` is a block of the thread, whatever the generator returns. */
  lemma RandomAccessInside(size: nat, threads: nat, access: nat, mode: AccessMode, t: nat, random: nat)
    requires threads > 0 && access > 0 && t < threads && size >= threads * access
    ensures AccessCount(size, threads, access) > 0
    ensures var info := InfoOf(size, threads, access, mode, t);
      var loc := random % AccessCount(size, threads, access);
      info.start + loc * info.stride + access <= size
  {
    NoAccessesIff(size, threads, access);
    BlocksInside(size, threads, access, mode, t, random % AccessCount(size, threads, access));
  }
}
