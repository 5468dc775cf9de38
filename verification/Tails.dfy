/** Keeping the newest `n` items of a sequence: what every cap and backstop in the store does. */
module Tails {

  function Last<T>(s: seq<T>, n: nat): (r: seq<T>)
    ensures |r| == if |s| <= n then |s| else n
  {
    if |s| <= n then s else s[|s| - n..]
  }

  /** Trimming before appending changes nothing once the result is trimmed again. */
  lemma TrimThenAppend<T>(x: seq<T>, y: seq<T>, n: nat)
    ensures Last(Last(x, n) + y, n) == Last(x + y, n)
  {
  }

  lemma LastOfLast<T>(s: seq<T>, m: nat, n: nat)
    requires m <= n
    ensures Last(Last(s, n), m) == Last(s, m)
  {
  }

  function Filter<T(!new)>(s: seq<T>, keep: T -> bool): (r: seq<T>)
    ensures forall x :: x in r <==> x in s && keep(x)
    ensures |r| <= |s|
  {
    if s == [] then []
    else
      var x := s[|s| - 1];
      var r := Filter(s[..|s| - 1], keep);
      assert s == s[..|s| - 1] + [x];
      if keep(x) then r + [x] else r
  }

  lemma {:induction false} FilterAppend<T(!new)>(s: seq<T>, t: seq<T>, keep: T -> bool)
    ensures Filter(s + t, keep) == Filter(s, keep) + Filter(t, keep)
  {
    if t == [] {
      assert s + t == s;
    } else {
      var all := s + t;
      assert all[..|all| - 1] == s + t[..|t| - 1];
      FilterAppend(s, t[..|t| - 1], keep);
    }
  }

  lemma {:induction false} FilterAll<T(!new)>(s: seq<T>, keep: T -> bool)
    requires forall x :: x in s ==> keep(x)
    ensures Filter(s, keep) == s
  {
    if s == [] {
    } else {
      assert s == s[..|s| - 1] + [s[|s| - 1]];
      FilterAll(s[..|s| - 1], keep);
    }
  }

  lemma {:induction false} FilterTwice<T(!new)>(s: seq<T>, first: T -> bool, second: T -> bool)
    requires forall x :: x in s && second(x) ==> first(x)
    ensures Filter(Filter(s, first), second) == Filter(s, second)
  {
    if s == [] {
    } else {
      var x, rest := s[|s| - 1], s[..|s| - 1];
      assert s == rest + [x];
      FilterTwice(rest, first, second);
      if first(x) {
        FilterAppend(Filter(rest, first), [x], second);
        assert Filter([x], second) == if second(x) then [x] else [];
      }
    }
  }

  /** The places of the kept items. */
  ghost function Places<T(!new)>(s: seq<T>, keep: T -> bool): set<nat> {
    set i | 0 <= i < |s| && keep(s[i])
  }

  lemma PlacesSnoc<T(!new)>(s: seq<T>, x: T, keep: T -> bool)
    ensures Places(s + [x], keep) == Places(s, keep) + if keep(x) then {|s|} else {}
  {
    var all := s + [x];
    assert all[|s|] == x && forall i :: 0 <= i < |s| ==> all[i] == s[i];
  }

  lemma PlacesBelow<T(!new)>(s: seq<T>, keep: T -> bool)
    ensures |s| !in Places(s, keep)
  {
  }

  /** How many items are kept, counted by their places. */
  lemma {:induction false} FilterLength<T(!new)>(s: seq<T>, keep: T -> bool)
    ensures |Filter(s, keep)| == |Places(s, keep)|
  {
    if s == [] {
      assert Places(s, keep) == {};
    } else {
      var init, last := s[..|s| - 1], s[|s| - 1];
      assert s == init + [last];
      FilterLength(init, keep);
      PlacesSnoc(init, last, keep);
      PlacesBelow(init, keep);
      hide Places;
    }
  }

  /** An item that occurs once is among the last `n` if fewer than `n` follow it. */
  lemma AmongLast<T(!new)>(a: seq<T>, x: T, b: seq<T>, n: nat)
    requires x !in a && x !in b
    ensures x in Last(a + [x] + b, n) <==> |b| < n
  {
    var all := a + [x] + b;
    assert all[|a|] == x;
    assert forall k :: 0 <= k < |a| ==> all[k] == a[k];
    assert forall k :: |a| < k < |all| ==> all[k] == b[k - |a| - 1];
    if |b| < n && n < |all| {
      assert Last(all, n)[n - |b| - 1] == x;
    }
  }

  lemma FilterAround<T(!new)>(a: seq<T>, x: T, b: seq<T>, keep: T -> bool)
    ensures Filter(a + [x] + b, keep) == Filter(a, keep) + (if keep(x) then [x] else []) + Filter(b, keep)
  {
    assert [x][..0] == [];
    assert Filter([x], keep) == if keep(x) then [x] else [];
    hide Filter;
    FilterAppend(a + [x], b, keep);
    FilterAppend(a, [x], keep);
  }

  lemma Around<T(!new)>(s: seq<T>, i: nat)
    requires i < |s| && forall j :: 0 <= j < |s| && j != i ==> s[j] != s[i]
    ensures s == s[..i] + [s[i]] + s[i + 1..] && s[i] !in s[..i] && s[i] !in s[i + 1..]
  {
  }

  /** Of distinct items, one is among the last `n` kept if it is kept and fewer than `n` kept ones follow it. */
  lemma LastKept<T(!new)>(s: seq<T>, keep: T -> bool, n: nat, i: nat)
    requires i < |s| && forall j :: 0 <= j < |s| && j != i ==> s[j] != s[i]
    ensures s[i] in Last(Filter(s, keep), n) <==> keep(s[i]) && |Places(s[i + 1..], keep)| < n
  {
    hide *;
    var a, b := s[..i], s[i + 1..];
    Around(s, i);
    FilterAround(a, s[i], b, keep);
    FilterLength(b, keep);
    if keep(s[i]) {
      AmongLast(Filter(a, keep), s[i], Filter(b, keep), n);
    } else {
      NotLast(Filter(s, keep), s[i], n);
    }
  }

  lemma NotLast<T(!new)>(s: seq<T>, x: T, n: nat)
    requires x !in s
    ensures x !in Last(s, n)
  {
  }
}
