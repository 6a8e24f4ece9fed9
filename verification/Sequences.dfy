/** Facts about duplicate-free sequences, increasing index sequences and finite ranges. */
module Sequences {

  ghost predicate Distinct<T>(s: seq<T>) {
    forall i, j :: 0 <= i < j < |s| ==> s[i] != s[j]
  }

  predicate Increasing(s: seq<nat>) {
    forall i, j :: 0 <= i < j < |s| ==> s[i] < s[j]
  }

  ghost function Elems<T>(s: seq<T>): set<T> {
    set x | x in s
  }

  ghost function Range(n: nat): (r: set<nat>)
    ensures forall i: nat :: i in r <==> i < n
  {
    if n == 0 then {} else Range(n - 1) + {n - 1}
  }

  lemma {:induction false} RangeSize(n: nat)
    ensures |Range(n)| == n
  {
    if n > 0 {
      RangeSize(n - 1);
    }
  }

  lemma SubsetSize<T>(a: set<T>, b: set<T>)
    requires a <= b
    ensures |a| <= |b|
    ensures |a| == |b| ==> a == b
  {
    assert b == a + (b - a);
    assert |b| == |a| + |b - a|;
  }

  lemma {:induction false} DistinctSize<T>(s: seq<T>)
    requires Distinct(s)
    ensures |Elems(s)| == |s|
  {
    if s != [] {
      var last := |s| - 1;
      DistinctSize(s[..last]);
      assert s == s[..last] + [s[last]];
      assert Elems(s) == Elems(s[..last]) + {s[last]};
    }
  }

  /** Pigeonhole: a duplicate-free sequence of numbers below `n` has at most `n` entries,
      and one with exactly `n` entries hits every number. */
  lemma Pigeonhole(s: seq<nat>, n: nat)
    requires Distinct(s)
    requires forall x :: x in s ==> x < n
    ensures |s| <= n
    ensures |s| == n ==> forall y: nat :: y < n ==> y in s
  {
    DistinctSize(s);
    RangeSize(n);
    assert Elems(s) <= Range(n);
    SubsetSize(Elems(s), Range(n));
    if |s| == n {
      forall y: nat | y < n ensures y in s {
        assert y in Range(n);
        assert y in Elems(s);
      }
    }
  }

  /** Every finite set can be listed without repetition. */
  lemma {:induction false} ListOf<T>(keys: set<T>) returns (s: seq<T>)
    ensures Distinct(s) && Elems(s) == keys
  {
    if keys == {} {
      s := [];
    } else {
      var k :| k in keys;
      var rest := ListOf(keys - {k});
      s := rest + [k];
      assert Elems(s) == Elems(rest) + {k};
      assert forall i :: 0 <= i < |rest| ==> rest[i] in Elems(rest);
    }
  }

  /** Every finite set of numbers below `n` has an increasing enumeration. */
  lemma {:induction false} Enumerate(S: set<nat>, n: nat) returns (s: seq<nat>)
    requires forall x :: x in S ==> x < n
    ensures Increasing(s) && |s| == |S|
    ensures forall x :: x in s <==> x in S
  {
    if n == 0 {
      s := [];
      assert S == {};
    } else if n - 1 in S {
      var rest := Enumerate(S - {n - 1}, n - 1);
      s := rest + [n - 1];
      forall i, j | 0 <= i < j < |s| ensures s[i] < s[j] {
        assert rest[i] in rest;
      }
    } else {
      s := Enumerate(S, n - 1);
    }
  }

  lemma IncreasingDistinct(s: seq<nat>)
    requires Increasing(s)
    ensures Distinct(s)
  {
  }
}
