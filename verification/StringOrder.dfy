/** Rust's ordering on strings and the sort that the data-parallel placement applies. */
module StringOrder {
  import opened Sequences

  predicate Leq(a: string, b: string) {
    a == [] || (b != [] && (a[0] < b[0] || (a[0] == b[0] && Leq(a[1..], b[1..]))))
  }

  /** The order is the dictionary's: a prefix comes first, otherwise the first difference decides. */
  lemma {:induction false} LeqIsDictionaryOrder(a: string, b: string)
    ensures Leq(a, b) <==> a <= b || exists k :: 0 <= k < |a| && k < |b| && a[..k] == b[..k] && a[k] < b[k]
  {
    if a != [] && b != [] && a[0] == b[0] {
      var u, v := a[1..], b[1..];
      LeqIsDictionaryOrder(u, v);
      if k :| 0 <= k < |u| && k < |v| && u[..k] == v[..k] && u[k] < v[k] {
        assert a[..k + 1] == [a[0]] + u[..k] && b[..k + 1] == [b[0]] + v[..k];
        assert a[k + 1] < b[k + 1];
      }
      if k :| 0 <= k < |a| && k < |b| && a[..k] == b[..k] && a[k] < b[k] {
        assert k > 0 && u[..k - 1] == a[..k][1..] && v[..k - 1] == b[..k][1..];
        assert u[k - 1] < v[k - 1];
      }
      assert a <= b <==> u <= v by {
        assert a == [a[0]] + u && b == [b[0]] + v;
      }
    } else if a != [] && b != [] && a[0] < b[0] {
      assert a[..0] == b[..0];
    }
  }

  lemma {:induction false} LeqTotal(a: string, b: string)
    ensures Leq(a, b) || Leq(b, a)
    ensures Leq(a, b) && Leq(b, a) ==> a == b
  {
    if a != [] && b != [] {
      LeqTotal(a[1..], b[1..]);
      assert a == [a[0]] + a[1..] && b == [b[0]] + b[1..];
    }
  }

  lemma {:induction false} LeqTransitive(a: string, b: string, c: string)
    requires Leq(a, b) && Leq(b, c)
    ensures Leq(a, c)
  {
    if a != [] && a[0] == b[0] == c[0] {
      LeqTransitive(a[1..], b[1..], c[1..]);
    }
  }

  ghost predicate Sorted(s: seq<string>) {
    forall i, j :: 0 <= i < j < |s| ==> Leq(s[i], s[j])
  }

  function Insert(x: string, s: seq<string>): seq<string> {
    if s == [] then [x]
    else if Leq(x, s[0]) then [x] + s
    else [s[0]] + Insert(x, s[1..])
  }

  function Sort(s: seq<string>): seq<string> {
    if s == [] then [] else Insert(s[0], Sort(s[1..]))
  }

  lemma {:induction false} InsertAdds(x: string, s: seq<string>)
    ensures multiset(Insert(x, s)) == multiset(s) + multiset{x}
  {
    if s != [] && !Leq(x, s[0]) {
      InsertAdds(x, s[1..]);
      assert s == [s[0]] + s[1..];
    }
  }

  /** `x` may stand before every member of `s`. */
  ghost predicate Before(x: string, s: seq<string>) {
    forall i :: 0 <= i < |s| ==> Leq(x, s[i])
  }

  lemma BeforeSorted(x: string, s: seq<string>)
    requires Sorted(s) && Before(x, s)
    ensures Sorted([x] + s)
  {
  }

  lemma BeforeAll(x: string, s: seq<string>)
    requires Sorted(s) && s != [] && Leq(x, s[0])
    ensures Before(x, s)
  {
    forall i | 0 <= i < |s| ensures Leq(x, s[i]) {
      if i > 0 { LeqTransitive(x, s[0], s[i]); }
    }
  }

  lemma {:induction false} InsertSorted(x: string, s: seq<string>)
    requires Sorted(s)
    ensures Sorted(Insert(x, s))
    ensures forall y :: Leq(y, x) && Before(y, s) ==> Before(y, Insert(x, s))
  {
    if s != [] {
      LeqTotal(x, s[0]);
      if Leq(x, s[0]) {
        BeforeAll(x, s);
        BeforeSorted(x, s);
      } else {
        var rest := s[1..];
        InsertSorted(x, rest);
        assert Before(s[0], rest);
        BeforeSorted(s[0], Insert(x, rest));
        forall y | Leq(y, x) && Before(y, s) ensures Before(y, [s[0]] + Insert(x, rest)) {
          assert Before(y, rest) by { assert forall i :: 0 <= i < |rest| ==> rest[i] == s[i + 1]; }
        }
      }
    }
  }

  lemma {:induction false} SortSorts(s: seq<string>)
    ensures Sorted(Sort(s)) && multiset(Sort(s)) == multiset(s)
  {
    if s != [] {
      SortSorts(s[1..]);
      InsertSorted(s[0], Sort(s[1..]));
      InsertAdds(s[0], Sort(s[1..]));
      assert s == [s[0]] + s[1..];
    }
  }

  lemma SortKeepsMembers(s: seq<string>)
    ensures Sorted(Sort(s)) && |Sort(s)| == |s|
    ensures forall x :: x in Sort(s) <==> x in s
    ensures Distinct(s) ==> Distinct(Sort(s))
  {
    var r := Sort(s);
    SortSorts(s);
    assert |multiset(r)| == |multiset(s)|;
    forall x ensures x in r <==> x in s {
      assert x in r <==> x in multiset(r);
      assert x in s <==> x in multiset(s);
    }
    if Distinct(s) {
      DistinctSize(s);
      assert Elems(r) == Elems(s);
      SameSizeDistinct(r);
    }
  }

  lemma {:induction false} SameSizeDistinct(s: seq<string>)
    ensures |Elems(s)| <= |s|
    ensures |Elems(s)| == |s| ==> Distinct(s)
  {
    if s != [] {
      var last := |s| - 1;
      SameSizeDistinct(s[..last]);
      assert s == s[..last] + [s[last]];
      assert Elems(s) == Elems(s[..last]) + {s[last]};
      if |Elems(s)| == |s| {
        assert s[last] !in s[..last];
        forall i, j | 0 <= i < j < |s| ensures s[i] != s[j] {
          assert s[..last][i] == s[i];
        }
      }
    }
  }
}
