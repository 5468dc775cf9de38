/** Python's stable `sorted`, by an order on the elements. */
module Sorting {

  function Insert<T>(x: T, s: seq<T>, leq: (T, T) -> bool): (r: seq<T>)
    ensures |r| == |s| + 1
  {
    if s == [] || leq(x, s[0]) then [x] + s else [s[0]] + Insert(x, s[1..], leq)
  }

  function Sort<T>(s: seq<T>, leq: (T, T) -> bool): (r: seq<T>)
    ensures |r| == |s|
  {
    if s == [] then [] else Insert(s[0], Sort(s[1..], leq), leq)
  }

  ghost predicate TotalOrder<T(!new)>(leq: (T, T) -> bool) {
    && (forall a, b :: leq(a, b) || leq(b, a))
    && (forall a, b, c :: leq(a, b) && leq(b, c) ==> leq(a, c))
  }

  ghost predicate Sorted<T>(s: seq<T>, leq: (T, T) -> bool) {
    forall i, j :: 0 <= i < j < |s| ==> leq(s[i], s[j])
  }

  lemma {:induction false} InsertSame<T(!new)>(x: T, s: seq<T>, leq: (T, T) -> bool)
    ensures multiset(Insert(x, s, leq)) == multiset(s) + multiset{x}
  {
    if s == [] || leq(x, s[0]) {
    } else {
      assert s == [s[0]] + s[1..];
      InsertSame(x, s[1..], leq);
    }
  }

  /** Sorting keeps every element, as often as it occurs. */
  lemma {:induction false} SortSame<T(!new)>(s: seq<T>, leq: (T, T) -> bool)
    ensures multiset(Sort(s, leq)) == multiset(s)
  {
    if s == [] {
    } else {
      assert s == [s[0]] + s[1..];
      SortSame(s[1..], leq);
      InsertSame(s[0], Sort(s[1..], leq), leq);
    }
  }

  lemma {:induction false} InsertSorted<T(!new)>(x: T, s: seq<T>, leq: (T, T) -> bool)
    requires TotalOrder(leq) && Sorted(s, leq)
    ensures Sorted(Insert(x, s, leq), leq)
  {
    if s == [] || leq(x, s[0]) {
      var r := [x] + s;
      forall i, j | 0 <= i < j < |r|
        ensures leq(r[i], r[j])
      {
        assert r[j] == s[j - 1];
        if j > 1 { assert leq(s[0], s[j - 1]); }
      }
    } else {
      var later := Insert(x, s[1..], leq);
      InsertSorted(x, s[1..], leq);
      InsertSame(x, s[1..], leq);
      forall j | 0 <= j < |later|
        ensures leq(s[0], later[j])
      {
        assert later[j] in multiset(later);
        if later[j] != x {
          assert later[j] in multiset(s[1..]);
          var k :| 0 <= k < |s[1..]| && s[1..][k] == later[j];
          assert leq(s[0], s[k + 1]);
        }
      }
    }
  }

  lemma {:induction false} SortSorted<T(!new)>(s: seq<T>, leq: (T, T) -> bool)
    requires TotalOrder(leq)
    ensures Sorted(Sort(s, leq), leq)
  {
    if s == [] {
    } else {
      SortSorted(s[1..], leq);
      InsertSorted(s[0], Sort(s[1..], leq), leq);
    }
  }

  lemma SortIn<T(!new)>(s: seq<T>, leq: (T, T) -> bool, x: T)
    ensures x in Sort(s, leq) <==> x in s
  {
    SortSame(s, leq);
    assert x in Sort(s, leq) <==> x in multiset(Sort(s, leq));
    assert x in s <==> x in multiset(s);
  }

  // ---- the order of strings, by code points ----

  function StringLeq(a: string, b: string): bool {
    if a == "" then true
    else if b == "" then false
    else if a[0] != b[0] then a[0] < b[0]
    else StringLeq(a[1..], b[1..])
  }

  lemma {:induction false} StringTotal(a: string, b: string)
    ensures StringLeq(a, b) || StringLeq(b, a)
  {
    if a != "" && b != "" && a[0] == b[0] {
      StringTotal(a[1..], b[1..]);
    }
  }

  lemma {:induction false} StringTransitive(a: string, b: string, c: string)
    requires StringLeq(a, b) && StringLeq(b, c)
    ensures StringLeq(a, c)
  {
    if a != "" && a[0] == b[0] == c[0] {
      StringTransitive(a[1..], b[1..], c[1..]);
    }
  }
}
