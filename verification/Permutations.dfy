/** Arrangements of the numbers below `n`: what a sort or a shuffle of an index array leaves behind. */
module Permutations {
  import opened Sums

  ghost predicate Permutes(s: seq<nat>, n: nat) {
    |s| == n && Distinct(s) && Below(s, n)
  }

  lemma PermutesLength(s: seq<nat>, n: nat)
    requires Permutes(s, n)
    ensures |s| == n
  {
  }

  function Identity(n: nat): (r: seq<nat>)
    ensures |r| == n
  {
    seq(n, i requires 0 <= i => i)
  }

  /** Pigeonhole: an arrangement leaves nothing out. */
  lemma PermutesOnto(s: seq<nat>, n: nat, x: nat)
    requires Permutes(s, n) && x < n
    ensures exists i :: 0 <= i < n && s[i] == x
  {
    if x !in s {
      DistinctBounded(s + [x], n);
    }
  }

  lemma PermutesMultiset(s: seq<nat>, n: nat)
    requires Permutes(s, n)
    ensures Permutes(Identity(n), n) && multiset(s) == multiset(Identity(n))
  {
    forall x ensures multiset(s)[x] == multiset(Identity(n))[x] {
      PermutesCount(s, n, x);
      PermutesCount(Identity(n), n, x);
    }
  }

  lemma PermutesCount(s: seq<nat>, n: nat, x: nat)
    requires Permutes(s, n)
    ensures multiset(s)[x] == if x < n then 1 else 0
  {
    DistinctIffMultiset(s);
    if x < n {
      PermutesOnto(s, n, x);
      assert x in s;
    } else {
      BelowCount(s, n, x);
    }
  }

  ghost function PositionOf(s: seq<nat>, n: nat, x: nat): (i: nat)
    requires Permutes(s, n) && x < n
    ensures i < n && s[i] == x
  {
    PermutesOnto(s, n, x);
    var i :| 0 <= i < n && s[i] == x;
    i
  }

  ghost function Inverse(s: seq<nat>, n: nat): (r: seq<nat>)
    requires Permutes(s, n)
    ensures Permutes(r, n)
    ensures forall i | 0 <= i < n :: s[r[i]] == i && r[s[i]] == i
  {
    var r: seq<nat> := seq(n, x requires 0 <= x < n => PositionOf(s, n, x));
    assert forall x | 0 <= x < n :: s[r[x]] == x;
    r
  }

  /** An injection of one set into another, given by a table. */
  lemma {:induction false} ImageCard(s: seq<nat>, n: nat, a: set<nat>, b: set<nat>)
    requires Permutes(s, n)
    requires forall v | v in a :: v < n
    requires forall w | w in b :: w < n
    requires forall v | 0 <= v < n :: v in a <==> s[v] in b
    ensures |a| == |b|
  {
    if a == {} {
      if w :| w in b {
        PermutesOnto(s, n, w);
      }
    } else {
      var v :| v in a;
      ImageCard(s, n, a - {v}, b - {s[v]});
    }
  }
}
