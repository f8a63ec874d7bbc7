/**
 * `atomicAdd`: a read, a local addition and a compare-and-swap, retried until it succeeds. Any
 * number of threads call it any number of times on one 32-bit cell, interleaved step by step.
 */
module AtomicAdd {
  import opened Sums
  import opened Words

  datatype Pc =
    | Outside
    | Reading(delta: nat)
    | Swapping(delta: nat, oldVal: nat)

  datatype Op = Op(thread: nat, delta: nat)

  /**
   * `log` lists the additions in the order of their successful swaps, `returned` the additions
   * each thread has completed, in its program order. `stale` marks threads that have seen
   * another thread succeed since their last read; `failed` counts failed swaps.
   */
  datatype Cell = Cell(value: nat, pcs: seq<Pc>, log: seq<Op>, returned: seq<seq<nat>>,
                       stale: seq<bool>, failed: nat)

  ghost predicate CellSized(threads: nat, s: Cell) {
    |s.pcs| == |s.stale| == |s.returned| == threads
  }

  ghost function CellStart(threads: nat, init: nat): Cell {
    Cell(init, seq(threads, _ => Outside), [], seq(threads, _ => []), seq(threads, _ => false), 0)
  }

  /** After a success every thread between its read and its swap has an outdated value. */
  ghost function Outdated(pcs: seq<Pc>): (r: seq<bool>)
    ensures |r| == |pcs|
  {
    seq(|pcs|, u requires 0 <= u < |pcs| => pcs[u].Swapping?)
  }

  ghost predicate CellStep(threads: nat, s: Cell, s': Cell, t: nat)
    requires CellSized(threads, s) && t < threads
  {
    match s.pcs[t]
    case Outside =>
      exists d: nat :: d < WORD && s' == s.(pcs := s.pcs[t := Reading(d)])
    case Reading(d) =>
      s' == s.(pcs := s.pcs[t := Swapping(d, s.value)], stale := s.stale[t := false])
    case Swapping(d, oldVal) =>
      if s.value == oldVal then
        var pcs := s.pcs[t := Outside];
        s' == Cell(Wrap(oldVal + d), pcs, s.log + [Op(t, d)], s.returned[t := s.returned[t] + [d]],
                   Outdated(pcs), s.failed)
      else
        s' == s.(pcs := s.pcs[t := Reading(d)], stale := s.stale[t := false], failed := s.failed + 1)
  }

  ghost predicate CellNext(threads: nat, s: Cell, s': Cell) {
    CellSized(threads, s) && exists t :: 0 <= t < threads && CellStep(threads, s, s', t)
  }

  ghost predicate CellTrace(threads: nat, init: nat, tr: seq<Cell>) {
    && |tr| > 0 && tr[0] == CellStart(threads, init)
    && forall i | 0 <= i < |tr| - 1 :: CellNext(threads, tr[i], tr[i+1])
  }

  ghost function StaleOnes(s: Cell): (r: seq<nat>)
    ensures |r| == |s.stale|
  {
    seq(|s.stale|, u requires 0 <= u < |s.stale| => if s.stale[u] then 1 else 0)
  }

  ghost function Deltas(log: seq<Op>): (r: seq<nat>)
    ensures |r| == |log| && forall i | 0 <= i < |log| :: r[i] == log[i].delta
  {
    seq(|log|, i requires 0 <= i < |log| => log[i].delta)
  }

  /** The additions of thread `t`, in the order of the log. */
  ghost function CompletedBy(log: seq<Op>, t: nat): seq<nat> {
    if |log| == 0 then []
    else
      var m := |log| - 1;
      CompletedBy(log[..m], t) + if log[m].thread == t then [log[m].delta] else []
  }

  /** Selecting keeps the order of the log. */
  lemma {:induction false} CompletedByConcat(a: seq<Op>, b: seq<Op>, t: nat)
    ensures CompletedBy(a + b, t) == CompletedBy(a, t) + CompletedBy(b, t)
  {
    if |b| == 0 {
      assert a + b == a;
    } else {
      var m := |b| - 1;
      CompletedByConcat(a, b[..m], t);
      assert (a + b)[..|a| + m] == a + b[..m];
      assert (a + b)[|a| + m] == b[m];
    }
  }

  lemma CompletedByOne(op: Op, t: nat)
    ensures CompletedBy([op], t) == if op.thread == t then [op.delta] else []
  {
    assert [op][..0] == [];
  }

  ghost predicate CellInv(threads: nat, init: nat, s: Cell) {
    && CellSized(threads, s)
    && s.value == Wrap(init + Sum(Deltas(s.log)))
    && (forall t | 0 <= t < threads :: CompletedBy(s.log, t) == s.returned[t])
    && (forall i | 0 <= i < |s.log| :: s.log[i].thread < threads)
    && (forall t | 0 <= t < threads && s.stale[t] :: s.pcs[t].Swapping?)
    && (forall t | 0 <= t < threads && s.pcs[t].Swapping? && !s.stale[t] :: s.pcs[t].oldVal == s.value)
    && s.failed + Sum(StaleOnes(s)) <= |s.log| * (threads - 1)
  }

  lemma SuccessStales(threads: nat, s: Cell, s': Cell, t: nat)
    requires CellSized(threads, s) && t < threads && s'.stale == Outdated(s.pcs[t := Outside])
    ensures Sum(StaleOnes(s')) <= threads - 1
  {
    var ones := seq(threads, _ => 1);
    SumConstant(ones, 1);
    SumUpdate(ones, ones[t := 0], t);
    SumMonotone(StaleOnes(s'), ones[t := 0]);
  }

  lemma SuccessLog(threads: nat, init: nat, s: Cell, s': Cell, t: nat)
    requires CellInv(threads, init, s) && t < threads && CellStep(threads, s, s', t)
    requires s.pcs[t].Swapping? && s.value == s.pcs[t].oldVal
    ensures s'.value == Wrap(init + Sum(Deltas(s'.log)))
    ensures forall u | 0 <= u < threads :: CompletedBy(s'.log, u) == s'.returned[u]
  {
    var d := s.pcs[t].delta;
    assert s'.log[..|s.log|] == s.log;
    assert Deltas(s'.log) == Deltas(s.log) + [d];
    SumConcat(Deltas(s.log), [d]);
    assert Sum([d]) == d;
    AddWrapped(init + Sum(Deltas(s.log)), d);
  }

  lemma OneMoreSuccess(k: nat, others: nat)
    ensures (k + 1) * others == k * others + others
  {
  }

  lemma SuccessInv(threads: nat, init: nat, s: Cell, s': Cell, t: nat)
    requires CellInv(threads, init, s) && t < threads && CellStep(threads, s, s', t)
    requires s.pcs[t].Swapping? && s.value == s.pcs[t].oldVal
    ensures CellInv(threads, init, s')
  {
    SuccessLog(threads, init, s, s', t);
    SuccessStales(threads, s, s', t);
    OneMoreSuccess(|s.log|, threads - 1);
    hide CompletedBy, Deltas, Sum;
  }

  lemma CellStepInv(threads: nat, init: nat, s: Cell, s': Cell, t: nat)
    requires CellInv(threads, init, s) && t < threads && CellStep(threads, s, s', t)
    ensures CellInv(threads, init, s')
  {
    if s.pcs[t].Swapping? && s.value == s.pcs[t].oldVal {
      SuccessInv(threads, init, s, s', t);
    } else if s.pcs[t].Outside? {
      assert StaleOnes(s') == StaleOnes(s);
    } else {
      SumUpdate(StaleOnes(s), StaleOnes(s'), t);
    }
  }

  lemma CellNextInv(threads: nat, init: nat, s: Cell, s': Cell)
    requires CellInv(threads, init, s) && CellNext(threads, s, s')
    ensures CellInv(threads, init, s')
  {
    var t :| 0 <= t < threads && CellStep(threads, s, s', t);
    CellStepInv(threads, init, s, s', t);
  }

  lemma CellStartInv(threads: nat, init: nat)
    requires threads > 0 && init < WORD
    ensures CellInv(threads, init, CellStart(threads, init))
  {
    SumConstant(StaleOnes(CellStart(threads, init)), 0);
  }

  /**
   * At every reachable state of every run: the log is an interleaving of what the threads have
   * completed, the cell holds its initial value plus the logged additions modulo 2^32, and there
   * have been at most `threads - 1` failed swaps per successful one.
   */
  lemma {:induction false} Linearizable(threads: nat, init: nat, tr: seq<Cell>, k: nat)
    requires threads > 0 && init < WORD && CellTrace(threads, init, tr) && k < |tr|
    ensures CellInv(threads, init, tr[k])
    ensures tr[k].value == (init + Sum(Deltas(tr[k].log))) % 0x1_0000_0000
    ensures forall t | 0 <= t < threads :: CompletedBy(tr[k].log, t) == tr[k].returned[t]
    ensures tr[k].failed <= |tr[k].log| * (threads - 1)
  {
    hide Sum, Deltas, CompletedBy, CellNext;
    if k == 0 {
      CellStartInv(threads, init);
    } else {
      Linearizable(threads, init, tr, k - 1);
      CellNextInv(threads, init, tr[k-1], tr[k]);
    }
  }

  // ---- a failed swap means that somebody else has succeeded ----

  /** Since state `j` of the run, thread `t` has done nothing but read the cell. */
  ghost predicate OnlyRead(tr: seq<Cell>, j: nat, k: nat, t: nat) {
    && j < k < |tr| && t < |tr[j].pcs| && tr[j].pcs[t].Reading?
    && (forall i | j < i <= k :: t < |tr[i].pcs| && tr[i].pcs[t] == Swapping(tr[j].pcs[t].delta, tr[j].value))
  }

  /** The entries of `log` from position `n` on are additions of other threads. */
  ghost predicate OthersFrom(log: seq<Op>, n: nat, t: nat) {
    forall i | n <= i < |log| :: log[i].thread != t
  }

  /** What a step of thread `u` does to the log, to the value and to the other threads. */
  lemma StepEffect(threads: nat, s: Cell, s': Cell, u: nat)
    requires CellSized(threads, s) && u < threads && CellStep(threads, s, s', u)
    ensures CellSized(threads, s') && forall t | 0 <= t < threads && t != u :: s'.pcs[t] == s.pcs[t]
    ensures (s'.log == s.log && s'.value == s.value)
            || (|s'.log| == |s.log| + 1 && s'.log[..|s.log|] == s.log && s'.log[|s.log|].thread == u)
    ensures s'.pcs[u].Swapping? ==>
              s.pcs[u].Reading? && s'.log == s.log && s'.pcs[u] == Swapping(s.pcs[u].delta, s.value)
  {
  }

  /** The last read of a thread that stands in front of its swap. */
  lemma {:induction false} LastRead(threads: nat, init: nat, tr: seq<Cell>, k: nat, t: nat) returns (j: nat)
    requires CellTrace(threads, init, tr) && k < |tr| && CellSized(threads, tr[k]) && t < threads
    requires tr[k].pcs[t].Swapping?
    ensures OnlyRead(tr, j, k, t)
    ensures tr[j].log <= tr[k].log && OthersFrom(tr[k].log, |tr[j].log|, t)
    ensures |tr[j].log| == |tr[k].log| ==> tr[k].value == tr[j].value
  {
    assert k > 0;
    var s, s' := tr[k-1], tr[k];
    assert CellNext(threads, s, s');
    var u :| 0 <= u < threads && CellStep(threads, s, s', u);
    hide CellStep, CellNext;
    StepEffect(threads, s, s', u);
    if u == t {
      j := k - 1;
    } else {
      j := LastRead(threads, init, tr, k - 1, t);
    }
  }

  /**
   * The loop is lock-free: when a swap is about to fail, some other thread has completed an addition
   * since the value was read.
   */
  lemma FailureMeansProgress(threads: nat, init: nat, tr: seq<Cell>, k: nat, t: nat) returns (j: nat, i: nat)
    requires threads > 0 && init < WORD && CellTrace(threads, init, tr) && k < |tr| && t < threads
    requires CellSized(threads, tr[k]) && tr[k].pcs[t].Swapping? && tr[k].value != tr[k].pcs[t].oldVal
    ensures OnlyRead(tr, j, k, t) && tr[j].log <= tr[k].log
    ensures j < k && tr[j].pcs[t].Reading? && tr[j].value == tr[k].pcs[t].oldVal
    ensures forall h | j < h <= k :: t < |tr[h].pcs| && tr[h].pcs[t] == tr[k].pcs[t]
    ensures |tr[j].log| <= i < |tr[k].log| && tr[k].log[i].thread != t
    ensures tr[k].stale[t]
  {
    Linearizable(threads, init, tr, k);
    j := LastRead(threads, init, tr, k, t);
    i := |tr[j].log|;
  }

  /** How far a thread has got with its current attempt. */
  ghost function Attempts(pcs: seq<Pc>): (r: seq<nat>)
    ensures |r| == |pcs|
  {
    seq(|pcs|, t requires 0 <= t < |pcs| =>
      match pcs[t]
      case Outside => 0
      case Reading(_) => 1
      case Swapping(_, _) => 2)
  }

  lemma AttemptsStep(threads: nat, s: Cell, s': Cell, t: nat)
    requires CellSized(threads, s) && t < threads && CellStep(threads, s, s', t)
    ensures CellSized(threads, s')
    ensures 3 * |s'.log| + 2 * s'.failed + Sum(Attempts(s'.pcs)) == 3 * |s.log| + 2 * s.failed + Sum(Attempts(s.pcs)) + 1
  {
    SumUpdate(Attempts(s.pcs), Attempts(s'.pcs), t);
  }

  /** Every step of a run belongs to a completed addition, to a failed attempt, or to one that is under way. */
  lemma {:induction false} StepsAccountedFor(threads: nat, init: nat, tr: seq<Cell>, k: nat)
    requires CellTrace(threads, init, tr) && k < |tr|
    ensures CellSized(threads, tr[k])
    ensures k == 3 * |tr[k].log| + 2 * tr[k].failed + Sum(Attempts(tr[k].pcs))
  {
    if k == 0 {
      SumConstant(Attempts(tr[0].pcs), 0);
    } else {
      StepsAccountedFor(threads, init, tr, k - 1);
      var s, s' := tr[k-1], tr[k];
      assert CellNext(threads, s, s');
      var t :| 0 <= t < threads && CellStep(threads, s, s', t);
      hide CellStep, CellNext, Attempts;
      AttemptsStep(threads, s, s', t);
    }
  }

  /**
   * A long run completes many additions: with `threads` threads, `k` steps leave at most
   * `2 * threads` steps for attempts under way, and the others pay for `2 * threads + 1` per addition.
   */
  lemma ManyStepsManyAdditions(threads: nat, init: nat, tr: seq<Cell>, k: nat)
    requires threads > 0 && init < WORD && CellTrace(threads, init, tr) && k < |tr|
    ensures k <= |tr[k].log| * (2 * threads + 1) + 2 * threads
  {
    StepsAccountedFor(threads, init, tr, k);
    Linearizable(threads, init, tr, k);
    var s, twos := tr[k], seq(threads, _ => 2);
    SumConstant(twos, 2);
    SumMonotone(Attempts(s.pcs), twos);
    PerAddition(|s.log|, threads);
  }

  lemma PerAddition(n: nat, threads: nat)
    requires threads > 0
    ensures 3 * n + 2 * (n * (threads - 1)) == n * (2 * threads + 1)
  {
  }

  /** `atomicAdd` without interference: the first swap succeeds. */
  method Add(cell: array<nat>, i: nat, delta: nat)
    requires i < cell.Length && delta < WORD
    modifies cell
    ensures cell[..] == old(cell[..])[i := (old(cell[i]) + delta) % 0x1_0000_0000]
  {
    var done := false;
    while !done
      invariant cell[..] == if done then old(cell[..])[i := Wrap(old(cell[i]) + delta)] else old(cell[..])
      decreases !done
    {
      var oldVal := cell[i];
      var newVal := Wrap(oldVal + delta);
      if cell[i] == oldVal {
        cell[i] := newVal;
        done := true;
      }
    }
  }
}
