/** Finite sums of natural numbers, and a few facts about sequences without repetition. */
module Sums {

  function Sum(s: seq<nat>): nat {
    if |s| == 0 then 0 else Sum(s[..|s|-1]) + s[|s|-1]
  }

  lemma SumPrefix(s: seq<nat>, i: nat)
    requires i < |s|
    ensures Sum(s[..i+1]) == Sum(s[..i]) + s[i]
  {
    assert s[..i+1][..i] == s[..i];
  }

  lemma {:induction false} SumUpdate(a: seq<nat>, b: seq<nat>, k: nat)
    requires |a| == |b| && k < |a|
    requires forall i | 0 <= i < |a| && i != k :: a[i] == b[i]
    ensures Sum(b) + a[k] == Sum(a) + b[k]
  {
    var m := |a| - 1;
    if k < m {
      SumUpdate(a[..m], b[..m], k);
    } else {
      assert a[..m] == b[..m];
    }
  }

  lemma {:induction false} SumMonotone(a: seq<nat>, b: seq<nat>)
    requires |a| == |b|
    requires forall i | 0 <= i < |a| :: a[i] <= b[i]
    ensures Sum(a) <= Sum(b)
    ensures Sum(a) == Sum(b) ==> a == b
  {
    if |a| > 0 {
      var m := |a| - 1;
      SumMonotone(a[..m], b[..m]);
      assert a == a[..m] + [a[m]] && b == b[..m] + [b[m]];
    }
  }

  lemma {:induction false} SumPlus(a: seq<nat>, b: seq<nat>, c: seq<nat>)
    requires |a| == |b| == |c|
    requires forall i | 0 <= i < |a| :: c[i] == a[i] + b[i]
    ensures Sum(c) == Sum(a) + Sum(b)
  {
    if |a| > 0 {
      var m := |a| - 1;
      SumPlus(a[..m], b[..m], c[..m]);
    }
  }

  lemma {:induction false} SumConstant(s: seq<nat>, x: nat)
    requires forall i | 0 <= i < |s| :: s[i] == x
    ensures Sum(s) == |s| * x
  {
    if |s| > 0 {
      SumConstant(s[..|s|-1], x);
    }
  }

  lemma {:induction false} SumTerm(s: seq<nat>, k: nat)
    requires k < |s|
    ensures s[k] <= Sum(s)
  {
    if k < |s| - 1 {
      SumTerm(s[..|s|-1], k);
    }
  }

  lemma {:induction false} SumConcat(a: seq<nat>, b: seq<nat>)
    ensures Sum(a + b) == Sum(a) + Sum(b)
  {
    if |b| == 0 {
      assert a + b == a;
    } else {
      var m := |b| - 1;
      assert (a + b)[..|a|+m] == a + b[..m];
      SumConcat(a, b[..m]);
    }
  }

  /** The numbers below `n`. */
  function UpTo(n: nat): (r: set<nat>)
    ensures forall i :: i in r <==> 0 <= i < n
    ensures |r| == n
  {
    if n == 0 then {} else UpTo(n - 1) + {n - 1}
  }

  // ---- sequences without repetition ----

  ghost predicate Distinct<T(!new)>(s: seq<T>) {
    forall i, j | 0 <= i < j < |s| :: s[i] != s[j]
  }

  /** The elements of `s` with the one at position `p` removed. */
  ghost function Without<T>(s: seq<T>, p: nat): (r: seq<T>)
    requires p < |s|
    ensures multiset(s) == multiset(r) + multiset{s[p]}
    ensures |r| == |s| - 1
  {
    assert s == s[..p] + [s[p]] + s[p+1..];
    s[..p] + s[p+1..]
  }

  lemma WithoutSame<T(!new)>(s: seq<T>, p: nat, t: seq<T>, q: nat)
    requires multiset(s) == multiset(t) && p < |s| && q < |t| && s[p] == t[q]
    ensures multiset(Without(s, p)) == multiset(Without(t, q))
  {
    forall x ensures multiset(Without(s, p))[x] == multiset(Without(t, q))[x] {
      assert multiset(s)[x] == multiset(t)[x];
    }
  }

  lemma {:induction false} DistinctIffMultiset<T(!new)>(s: seq<T>)
    ensures Distinct(s) <==> forall x :: multiset(s)[x] <= 1
  {
    if |s| > 0 {
      var m := |s| - 1;
      DistinctIffMultiset(s[..m]);
      assert s == s[..m] + [s[m]];
      assert multiset(s) == multiset(s[..m]) + multiset{s[m]};
      if Distinct(s) {
        assert Distinct(s[..m]);
        assert s[m] !in s[..m];
        assert s[m] !in multiset(s[..m]);
        forall x ensures multiset(s)[x] <= 1 { }
      }
      if forall x :: multiset(s)[x] <= 1 {
        assert multiset(s)[s[m]] <= 1;
        assert s[m] !in multiset(s[..m]);
        forall x ensures multiset(s[..m])[x] <= 1 { assert multiset(s)[x] <= 1; }
        assert forall i | 0 <= i < m :: s[i] in s[..m];
      }
    }
  }

  lemma CountAppend<T(!new)>(s: seq<T>, x: T, y: T)
    ensures multiset(s + [x])[y] == multiset(s)[y] + if x == y then 1 else 0
  {
  }

  /** Every entry is a number below `n`. */
  predicate Below(s: seq<nat>, n: nat) {
    forall i | 0 <= i < |s| :: s[i] < n
  }

  lemma BelowCount(s: seq<nat>, n: nat, d: nat)
    requires Below(s, n) && n <= d
    ensures multiset(s)[d] == 0
  {
    assert d in multiset(s) ==> d in s;
  }

  /** Pigeonhole: a list of distinct numbers below `n` has at most `n` entries. */
  lemma {:induction false} DistinctBounded(s: seq<nat>, n: nat)
    requires Distinct(s) && Below(s, n)
    ensures |s| <= n
  {
    if |s| > 0 {
      assert s[0] < n;
      if p :| 0 <= p < |s| && s[p] == n - 1 {
        DistinctBounded(Without(s, p), n - 1);
      } else {
        DistinctBounded(s, n - 1);
      }
    }
  }

  /** The values of `w` at the indices listed in `s`, in that order. */
  function Pick(w: seq<nat>, s: seq<nat>): (r: seq<nat>)
    requires Below(s, |w|)
    ensures |r| == |s|
  {
    seq(|s|, i requires 0 <= i < |s| => w[s[i]])
  }

  lemma PickWithout(w: seq<nat>, s: seq<nat>, p: nat)
    requires Below(s, |w|) && p < |s|
    ensures Sum(Pick(w, s)) == Sum(Pick(w, Without(s, p))) + w[s[p]]
    ensures multiset(Pick(w, s)) == multiset(Pick(w, Without(s, p))) + multiset{w[s[p]]}
  {
    var a, b := Pick(w, s[..p]), Pick(w, s[p+1..]);
    assert Pick(w, s) == a + [w[s[p]]] + b;
    assert Pick(w, Without(s, p)) == a + b;
    SumConcat(a + [w[s[p]]], b);
    SumConcat(a, [w[s[p]]]);
    SumConcat(a, b);
  }

  ghost function Elements(s: seq<nat>): set<nat> {
    set x | x in s
  }

  /** The values of `w` at the indices in `vs`, zero elsewhere; `SetSum` adds them up. */
  ghost function Masked(w: seq<nat>, vs: set<nat>): (r: seq<nat>)
    ensures |r| == |w|
  {
    seq(|w|, i requires 0 <= i < |w| => if i in vs then w[i] else 0)
  }

  ghost function SetSum(w: seq<nat>, vs: set<nat>): nat {
    Sum(Masked(w, vs))
  }

  /** A sum over a list without repetition is the sum over the set it lists. */
  lemma {:induction false} PickIsSetSum(w: seq<nat>, s: seq<nat>)
    requires Distinct(s) && Below(s, |w|)
    ensures Sum(Pick(w, s)) == SetSum(w, Elements(s))
  {
    if |s| == 0 {
      SumConstant(Masked(w, Elements(s)), 0);
    } else {
      var m := |s| - 1;
      var r := s[..m];
      assert Without(s, m) == r;
      PickWithout(w, s, m);
      PickIsSetSum(w, r);
      assert s[m] !in Elements(r) && Elements(s) == Elements(r) + {s[m]};
      SumUpdate(Masked(w, Elements(r)), Masked(w, Elements(s)), s[m]);
    }
  }

  lemma SetSumUnion(w: seq<nat>, a: set<nat>, b: set<nat>)
    requires a !! b
    ensures SetSum(w, a + b) == SetSum(w, a) + SetSum(w, b) <= Sum(w)
  {
    SumPlus(Masked(w, a), Masked(w, b), Masked(w, a + b));
    SumMonotone(Masked(w, a + b), w);
  }

  /** The picked values, as a multiset and as a sum, depend only on how often each index is listed. */
  lemma {:induction false} PickMultiset(w: seq<nat>, s: seq<nat>, t: seq<nat>)
    requires multiset(s) == multiset(t) && Below(s, |w|)
    ensures Below(t, |w|)
    ensures multiset(Pick(w, s)) == multiset(Pick(w, t))
    ensures Sum(Pick(w, s)) == Sum(Pick(w, t))
  {
    forall i | 0 <= i < |t| ensures t[i] < |w| {
      assert t[i] in multiset(t);
      assert t[i] in multiset(s);
    }
    if |s| == 0 {
      assert |multiset(t)| == |t|;
      assert s == t;
    } else {
      var m := |s| - 1;
      assert s[m] in multiset(t);
      var p :| 0 <= p < |t| && t[p] == s[m];
      WithoutSame(s, m, t, p);
      PickMultiset(w, Without(s, m), Without(t, p));
      PickWithout(w, s, m);
      PickWithout(w, t, p);
    }
  }

  // ---- tasks that count up to their last step ----

  /** Steps that are left to each of several tasks, all of which end at `last`. */
  ghost function Countdown(pcs: seq<nat>, last: nat): (r: seq<nat>)
    ensures |r| == |pcs|
  {
    seq(|pcs|, i requires 0 <= i < |pcs| => if pcs[i] <= last then last - pcs[i] else 0)
  }

  lemma CountdownStep(pcs: seq<nat>, last: nat, i: nat, pc: nat)
    requires i < |pcs| && pcs[i] < pc <= last
    ensures Sum(Countdown(pcs[i := pc], last)) < Sum(Countdown(pcs, last))
  {
    SumUpdate(Countdown(pcs, last), Countdown(pcs[i := pc], last), i);
  }

  lemma CountdownStart(n: nat, last: nat)
    ensures Sum(Countdown(seq(n, _ => 0), last)) == n * last
  {
    SumConstant(Countdown(seq(n, _ => 0), last), last);
  }

  // ---- concatenations ----

  /** All buffers one after the other. */
  ghost function Concat(buffers: seq<seq<nat>>): seq<nat> {
    if |buffers| == 0 then [] else Concat(buffers[..|buffers|-1]) + buffers[|buffers|-1]
  }

  lemma ConcatEmpty()
    ensures Concat([]) == []
  {
  }

  ghost function Copies(buffers: seq<seq<nat>>, d: nat): (r: seq<nat>)
    ensures |r| == |buffers|
  {
    seq(|buffers|, t requires 0 <= t < |buffers| => multiset(buffers[t])[d])
  }

  lemma {:induction false} ConcatCount(buffers: seq<seq<nat>>, d: nat)
    ensures multiset(Concat(buffers))[d] == Sum(Copies(buffers, d))
  {
    if |buffers| > 0 {
      var m := |buffers| - 1;
      ConcatCount(buffers[..m], d);
      assert Copies(buffers, d)[..m] == Copies(buffers[..m], d);
    }
  }

  lemma {:induction false} ConcatPrefix(buffers: seq<seq<nat>>, k: nat)
    requires k < |buffers|
    ensures Concat(buffers[..k+1]) == Concat(buffers[..k]) + buffers[k]
    ensures |Concat(buffers[..k+1])| <= |Concat(buffers)|
    decreases |buffers| - k
  {
    assert buffers[..k+1][..k] == buffers[..k];
    if k + 1 < |buffers| {
      ConcatPrefix(buffers, k + 1);
    } else {
      assert buffers[..k+1] == buffers;
    }
  }

  lemma {:induction false} ConcatBelow(buffers: seq<seq<nat>>, n: nat)
    requires forall t | 0 <= t < |buffers| :: Below(buffers[t], n)
    ensures Below(Concat(buffers), n)
  {
    if |buffers| > 0 {
      ConcatBelow(buffers[..|buffers|-1], n);
    }
  }
}
