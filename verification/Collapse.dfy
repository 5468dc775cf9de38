/**
 Collapsing a list of prefixes: siblings are merged into their supernet, then blocks inside an earlier
 block are dropped.  The result is shown to be exact: it denotes the same addresses, nothing twice, and it
 consists of precisely the largest blocks that fit in the union.
 */
module Collapse {
  import opened Powers
  import opened Prefixes

  // ---- what a list of prefixes denotes ----

  ghost predicate AllValid(s: seq<Prefix>, width: nat) {
    forall p :: p in s ==> Valid(p, width)
  }

  ghost function Elements(s: seq<Prefix>): set<Prefix> {
    set p | p in s
  }

  ghost predicate Covers(ps: set<Prefix>, a: nat, width: nat) {
    exists p :: p in ps && Contains(p, a, width)
  }

  ghost predicate SameAddresses(ps: set<Prefix>, qs: set<Prefix>, width: nat) {
    forall a: nat :: Covers(ps, a, width) <==> Covers(qs, a, width)
  }

  /** Every address of `p` is covered. */
  ghost predicate CoversAll(ps: set<Prefix>, p: Prefix, width: nat) {
    forall a: nat :: Contains(p, a, width) ==> Covers(ps, a, width)
  }

  /** Disjoint, in address order, and with no two blocks left that could still be merged. */
  ghost predicate Canonical(blocks: seq<Prefix>, width: nat) {
    && AllValid(blocks, width)
    && (forall i, j :: 0 <= i < j < |blocks| ==> Precedes(blocks[i], blocks[j], width))
    && (forall p, q :: p in blocks && q in blocks ==> !Siblings(p, q))
  }

  // ---- first pass: merge ----

  /** The dictionary of the merging pass: at most one child under each supernet. */
  ghost predicate Keyed(subnets: map<Prefix, Prefix>, width: nat) {
    forall k :: k in subnets ==> Valid(subnets[k], width) && Supernet(subnets[k]) == k
  }

  lemma JoinHalves(p: Prefix, q: Prefix, a: nat, width: nat)
    requires Valid(p, width) && Valid(q, width)
    requires p != q && Supernet(p) == Supernet(q)
    ensures Contains(Supernet(p), a, width) <==> Contains(p, a, width) || Contains(q, a, width)
  {
    WithinSupernet(p, width);
    WithinSupernet(q, width);
    if p.length > 0 && q.length > 0 {
      Halves(p, width);
      Halves(q, width);
      assert p.bits % 2 != q.bits % 2;
    }
  }

  lemma MergeKeepsAddresses(rest: set<Prefix>, p: Prefix, q: Prefix, width: nat)
    requires Valid(p, width) && Valid(q, width)
    requires p != q && Supernet(p) == Supernet(q)
    ensures SameAddresses(rest + {p, q}, rest + {Supernet(p)}, width)
  {
    var s := Supernet(p);
    forall a: nat
      ensures Covers(rest + {p, q}, a, width) <==> Covers(rest + {s}, a, width)
    {
      JoinHalves(p, q, a, width);
      if Covers(rest + {p, q}, a, width) {
        var r :| r in rest + {p, q} && Contains(r, a, width);
        assert (if r in rest then r else s) in rest + {s};
      }
      if Covers(rest + {s}, a, width) {
        var r :| r in rest + {s} && Contains(r, a, width);
        assert r in rest ==> r in rest + {p, q};
        assert p in rest + {p, q} && q in rest + {p, q};
      }
    }
  }

  /** The networks still in play: those waiting to be merged and those filed under their supernet. */
  ghost function InPlay(toMerge: seq<Prefix>, subnets: map<Prefix, Prefix>): set<Prefix> {
    Elements(toMerge) + subnets.Values
  }

  ghost predicate Merging(toMerge: seq<Prefix>, subnets: map<Prefix, Prefix>, nets: set<Prefix>, width: nat) {
    && AllValid(toMerge, width)
    && Keyed(subnets, width)
    && SameAddresses(InPlay(toMerge, subnets), nets, width)
  }

  lemma FileUnderSupernet(others: seq<Prefix>, net: Prefix, subnets: map<Prefix, Prefix>, nets: set<Prefix>, width: nat)
    requires Merging(others + [net], subnets, nets, width) && Supernet(net) !in subnets
    ensures Merging(others, subnets[Supernet(net) := net], nets, width)
  {
    var filed := subnets[Supernet(net) := net];
    assert Elements(others + [net]) == Elements(others) + {net};
    AddKey(subnets, Supernet(net), net);
    assert InPlay(others, filed) == InPlay(others + [net], subnets);
  }

  lemma MergePair(others: seq<Prefix>, net: Prefix, subnets: map<Prefix, Prefix>, nets: set<Prefix>, width: nat)
    requires Merging(others + [net], subnets, nets, width)
    requires Supernet(net) in subnets && subnets[Supernet(net)] != net
    ensures Merging(others + [Supernet(net)], subnets - {Supernet(net)}, nets, width)
    ensures |subnets - {Supernet(net)}| == |subnets| - 1
  {
    var super := Supernet(net);
    var existing := subnets[super];
    var remaining := subnets - {super};
    assert remaining.Keys == subnets.Keys - {super};
    assert Elements(others + [net]) == Elements(others) + {net};
    assert Elements(others + [super]) == Elements(others) + {super};
    assert net in Elements(others + [net]);
    WithinSupernet(net, width);
    RemoveKey(subnets, super);
    var rest := Elements(others) + remaining.Values;
    MergeKeepsAddresses(rest, net, existing, width);
    assert InPlay(others + [net], subnets) == rest + {net, existing};
    assert InPlay(others + [super], remaining) == rest + {super};
    assert SameAddresses(rest + {net, existing}, nets, width);
    TransferAddresses(rest + {super}, rest + {net, existing}, nets, width);
  }

  lemma AlreadyFiled(others: seq<Prefix>, net: Prefix, subnets: map<Prefix, Prefix>, nets: set<Prefix>, width: nat)
    requires Merging(others + [net], subnets, nets, width)
    requires Supernet(net) in subnets && subnets[Supernet(net)] == net
    ensures Merging(others, subnets, nets, width)
  {
    assert Elements(others + [net]) == Elements(others) + {net};
    assert InPlay(others, subnets) == InPlay(others + [net], subnets);
  }

  lemma SplitLast(s: seq<Prefix>)
    requires s != []
    ensures s == s[..|s| - 1] + [s[|s| - 1]]
  {
  }

  method MergeSiblings(nets: seq<Prefix>, width: nat) returns (subnets: map<Prefix, Prefix>)
    requires AllValid(nets, width)
    ensures Keyed(subnets, width)
    ensures SameAddresses(subnets.Values, Elements(nets), width)
  {
    var toMerge := nets;
    subnets := map[];
    assert InPlay(toMerge, subnets) == Elements(nets);
    while toMerge != []
      invariant Merging(toMerge, subnets, Elements(nets), width)
      decreases 2 * |toMerge| + |subnets|
    {
      var net := toMerge[|toMerge| - 1];
      var others := toMerge[..|toMerge| - 1];
      SplitLast(toMerge);
      var super := Supernet(net);
      if super !in subnets {
        FileUnderSupernet(others, net, subnets, Elements(nets), width);
        subnets := subnets[super := net];
        toMerge := others;
      } else if subnets[super] != net {
        MergePair(others, net, subnets, Elements(nets), width);
        subnets := subnets - {super};
        toMerge := others + [super];
      } else {
        AlreadyFiled(others, net, subnets, Elements(nets), width);
        toMerge := others;
      }
    }
    assert InPlay(toMerge, subnets) == subnets.Values;
  }

  lemma AddKey(m: map<Prefix, Prefix>, k: Prefix, v: Prefix)
    requires k !in m
    ensures m[k := v].Values == m.Values + {v}
  {
    var r := m[k := v];
    assert r[k] == v;
    forall x | x in m.Values
      ensures x in r.Values
    {
      var j :| j in m && m[j] == x;
      assert r[j] == x;
    }
  }

  lemma RemoveKey(m: map<Prefix, Prefix>, k: Prefix)
    requires k in m
    ensures m.Values == (m - {k}).Values + {m[k]}
  {
    var r := m - {k};
    forall v | v in m.Values
      ensures v in r.Values + {m[k]}
    {
      var x :| x in m && m[x] == v;
      if x != k {
        assert x in r && r[x] == v;
      }
    }
    forall v | v in r.Values
      ensures v in m.Values
    {
      var x :| x in r && r[x] == v;
      assert x in m && m[x] == v;
    }
  }

  // ---- second pass: sort, then drop what an earlier block already holds ----

  /** The order networks sort in: by first address, then the larger block first. */
  predicate Before(p: Prefix, q: Prefix, width: nat) {
    && p.length <= width && q.length <= width
    && (First(p, width) < First(q, width) || (First(p, width) == First(q, width) && p.length < q.length))
  }

  ghost predicate Ascending(s: seq<Prefix>, width: nat) {
    && AllValid(s, width)
    && forall i, j :: 0 <= i < j < |s| ==> Before(s[i], s[j], width)
  }

  lemma BeforeTotal(p: Prefix, q: Prefix, width: nat)
    requires Valid(p, width) && Valid(q, width) && p != q
    ensures Before(p, q, width) || Before(q, p, width)
  {
    if First(p, width) == First(q, width) && p.length == q.length {
      SameExtent(p, q, width);
    }
  }

  lemma InsertAt(s: seq<Prefix>, i: nat, p: Prefix, width: nat)
    requires Ascending(s, width) && Valid(p, width) && i <= |s|
    requires i > 0 ==> Before(s[i - 1], p, width)
    requires i < |s| ==> Before(p, s[i], width)
    ensures Ascending(s[..i] + [p] + s[i..], width)
  {
    forall k | 0 <= k < i
      ensures Before(s[k], p, width)
    {
      assert k < i - 1 ==> Before(s[k], s[i - 1], width);
    }
    forall k | i <= k < |s|
      ensures Before(p, s[k], width)
    {
      assert i < k ==> Before(s[i], s[k], width);
    }
  }

  lemma InsertElements(s: seq<Prefix>, i: nat, p: Prefix)
    requires i <= |s|
    ensures Elements(s[..i] + [p] + s[i..]) == Elements(s) + {p}
  {
    var r := s[..i] + [p] + s[i..];
    assert s == s[..i] + s[i..];
    assert r[i] == p;
    forall q
      ensures q in r <==> q in s || q == p
    {
      assert q in s ==> q in s[..i] || q in s[i..];
    }
  }

  method InsertSorted(s: seq<Prefix>, p: Prefix, width: nat) returns (r: seq<Prefix>)
    requires Ascending(s, width) && Valid(p, width) && p !in s
    ensures Ascending(r, width)
    ensures Elements(r) == Elements(s) + {p}
  {
    var i := 0;
    while i < |s| && Before(s[i], p, width)
      invariant 0 <= i <= |s|
      invariant i > 0 ==> Before(s[i - 1], p, width)
    {
      i := i + 1;
    }
    if i < |s| {
      assert s[i] in Elements(s);
      BeforeTotal(s[i], p, width);
    }
    InsertAt(s, i, p, width);
    InsertElements(s, i, p);
    r := s[..i] + [p] + s[i..];
  }

  /** Sorting has moved part of the dictionary's values into `s`; `left` holds the others. */
  ghost predicate Sorting(s: seq<Prefix>, left: map<Prefix, Prefix>, all: set<Prefix>, width: nat) {
    && Keyed(left, width)
    && Ascending(s, width)
    && (forall p :: p in s ==> Supernet(p) !in left)
    && Elements(s) + left.Values == all
  }

  lemma SortingStep(s: seq<Prefix>, larger: seq<Prefix>, left: map<Prefix, Prefix>, k: Prefix, all: set<Prefix>, width: nat)
    requires Sorting(s, left, all, width) && k in left
    requires Ascending(larger, width) && Elements(larger) == Elements(s) + {left[k]}
    ensures Sorting(larger, left - {k}, all, width)
    ensures |left - {k}| < |left|
  {
    var rest := left - {k};
    assert rest.Keys == left.Keys - {k};
    RemoveKey(left, k);
    hide Ascending;
    forall p | p in larger
      ensures Supernet(p) !in rest
    {
      assert p in Elements(larger);
    }
  }

  method SortedValues(subnets: map<Prefix, Prefix>, width: nat) returns (s: seq<Prefix>)
    requires Keyed(subnets, width)
    ensures Ascending(s, width)
    ensures Elements(s) == subnets.Values
  {
    s := [];
    var left := subnets;
    while left.Keys != {}
      invariant Sorting(s, left, subnets.Values, width)
      decreases |left|
    {
      var k :| k in left.Keys;
      var larger := InsertSorted(s, left[k], width);
      SortingStep(s, larger, left, k, subnets.Values, width);
      s, left := larger, left - {k};
    }
    assert left.Values == {};
  }

  lemma NextBlock(last: Prefix, net: Prefix, width: nat)
    requires Valid(last, width) && Valid(net, width) && Before(last, net, width)
    ensures Last(net, width) <= Last(last, width) ==> Within(net, last, width)
    ensures Last(last, width) < Last(net, width) ==> Precedes(last, net, width)
  {
    if last.length <= net.length {
      NestedOrApart(last, net, width);
    } else {
      NestedOrApart(net, last, width);
    }
  }

  ghost predicate Subsumed(p: Prefix, blocks: seq<Prefix>, width: nat) {
    exists b :: b in blocks && Within(p, b, width)
  }

  /** What the scan keeps: blocks taken from the part scanned so far, disjoint, holding all of that part. */
  ghost predicate Scanned(blocks: seq<Prefix>, scanned: seq<Prefix>, width: nat) {
    && (forall p :: p in blocks ==> p in scanned)
    && (forall j, k :: 0 <= j < k < |blocks| ==> Precedes(blocks[j], blocks[k], width))
    && (forall p :: p in scanned ==> Subsumed(p, blocks, width))
  }

  lemma ScanFirst(net: Prefix, scanned: seq<Prefix>, width: nat)
    requires net.length <= width && scanned == [net]
    ensures Scanned([net], scanned, width)
  {
    assert Within(net, net, width);
    assert Subsumed(net, [net], width);
  }

  lemma ScanDrop(blocks: seq<Prefix>, scanned: seq<Prefix>, net: Prefix, width: nat)
    requires Scanned(blocks, scanned, width) && blocks != []
    requires Within(net, blocks[|blocks| - 1], width)
    ensures Scanned(blocks, scanned + [net], width)
  {
    assert blocks[|blocks| - 1] in blocks;
    assert Subsumed(net, blocks, width);
  }

  lemma ScanKeep(blocks: seq<Prefix>, scanned: seq<Prefix>, net: Prefix, width: nat)
    requires Scanned(blocks, scanned, width) && blocks != []
    requires Precedes(blocks[|blocks| - 1], net, width)
    ensures Scanned(blocks + [net], scanned + [net], width)
  {
    var blocks' := blocks + [net];
    forall p | p in scanned + [net]
      ensures Subsumed(p, blocks', width)
    {
      if p in scanned {
        assert Subsumed(p, blocks, width);
        var b :| b in blocks && Within(p, b, width);
        assert b in blocks';
      } else {
        assert net in blocks' && Within(net, net, width);
      }
    }
    forall j | 0 <= j < |blocks|
      ensures Precedes(blocks[j], net, width)
    {
      assert j < |blocks| - 1 ==> Precedes(blocks[j], blocks[|blocks| - 1], width);
    }
  }

  lemma ScanOrder(s: seq<Prefix>, i: nat, last: Prefix, width: nat)
    requires Ascending(s, width) && i < |s| && last in s[..i]
    ensures Valid(last, width) && Valid(s[i], width) && Before(last, s[i], width)
  {
    var k :| 0 <= k < i && s[k] == last;
    assert s[k] in Elements(s) && s[i] in Elements(s);
  }

  method DropSubsumed(s: seq<Prefix>, width: nat) returns (blocks: seq<Prefix>)
    requires Ascending(s, width)
    ensures Scanned(blocks, s, width)
  {
    blocks := [];
    var i := 0;
    while i < |s|
      invariant 0 <= i <= |s|
      invariant Scanned(blocks, s[..i], width)
      invariant blocks == [] ==> i == 0
    {
      var net := s[i];
      assert s[..i + 1] == s[..i] + [net];
      assert net in Elements(s);
      if blocks == [] {
        ScanFirst(net, s[..i + 1], width);
        blocks := [net];
      } else {
        var last := blocks[|blocks| - 1];
        assert last in blocks;
        ScanOrder(s, i, last, width);
        NextBlock(last, net, width);
        if Last(last, width) >= Last(net, width) {
          ScanDrop(blocks, s[..i], net, width);
        } else {
          ScanKeep(blocks, s[..i], net, width);
          blocks := blocks + [net];
        }
      }
      i := i + 1;
    }
    assert s[..i] == s;
  }

  lemma WithinContains(p: Prefix, b: Prefix, a: nat, width: nat)
    requires Within(p, b, width) && Contains(p, a, width)
    ensures Contains(b, a, width)
  {
    hide First, Last;
  }

  lemma KeptCovers(blocks: seq<Prefix>, s: seq<Prefix>, a: nat, width: nat)
    requires forall p :: p in s ==> Subsumed(p, blocks, width)
    requires Covers(Elements(s), a, width)
    ensures Covers(Elements(blocks), a, width)
  {
    hide Contains, Within;
    var p :| p in Elements(s) && Contains(p, a, width);
    assert Subsumed(p, blocks, width);
    var b :| b in blocks && Within(p, b, width);
    WithinContains(p, b, a, width);
    assert b in Elements(blocks);
  }

  lemma FewerCover(ps: set<Prefix>, qs: set<Prefix>, a: nat, width: nat)
    requires ps <= qs && Covers(ps, a, width)
    ensures Covers(qs, a, width)
  {
    hide Contains;
    var p :| p in ps && Contains(p, a, width);
    assert p in qs;
  }

  lemma SubsumedKeepsAddresses(blocks: seq<Prefix>, s: seq<Prefix>, width: nat)
    requires Scanned(blocks, s, width)
    ensures Elements(blocks) <= Elements(s)
    ensures SameAddresses(Elements(blocks), Elements(s), width)
  {
    assert Elements(blocks) <= Elements(s);
    hide Elements, Covers, Subsumed, Precedes;
    forall a: nat
      ensures Covers(Elements(blocks), a, width) <==> Covers(Elements(s), a, width)
    {
      if Covers(Elements(s), a, width) { KeptCovers(blocks, s, a, width); }
      if Covers(Elements(blocks), a, width) { FewerCover(Elements(blocks), Elements(s), a, width); }
    }
  }

  /** `ipaddress.collapse_addresses`. */
  method CollapseAddresses(nets: seq<Prefix>, width: nat) returns (blocks: seq<Prefix>)
    requires AllValid(nets, width)
    ensures Canonical(blocks, width)
    ensures SameAddresses(Elements(blocks), Elements(nets), width)
  {
    var subnets := MergeSiblings(nets, width);
    var s := SortedValues(subnets, width);
    blocks := DropSubsumed(s, width);
    SubsumedKeepsAddresses(blocks, s, width);
    forall p, q | p in blocks && q in blocks
      ensures !Siblings(p, q)
    {
      assert p in Elements(blocks) && q in Elements(blocks);
      var j :| j in subnets && subnets[j] == p;
      var k :| k in subnets && subnets[k] == q;
    }
  }

  // ---- the result is the set of largest blocks that fit in the union ----

  lemma HalvesCovered(ps: set<Prefix>, c: Prefix, half: Prefix, width: nat)
    requires Valid(c, width) && Valid(half, width) && half.length > 0 && Supernet(half) == c
    requires CoversAll(ps, c, width)
    ensures CoversAll(ps, half, width) && Within(half, c, width)
  {
    WithinSupernet(half, width);
    forall a: nat | Contains(half, a, width)
      ensures Covers(ps, a, width)
    {
      assert Contains(c, a, width);
    }
  }

  /** A block that fits in the union fits in one block of a canonical list. */
  lemma {:induction false} FitsInOneBlock(blocks: seq<Prefix>, c: Prefix, width: nat) returns (r: Prefix)
    requires Canonical(blocks, width) && Valid(c, width)
    requires CoversAll(Elements(blocks), c, width)
    ensures r in blocks && Valid(r, width) && Within(c, r, width)
    decreases width - c.length
  {
    if c.length == width {
      assert Contains(c, First(c, width), width);
      r :| r in Elements(blocks) && Contains(r, First(c, width), width);
      NestedOrApart(r, c, width);
    } else {
      var low := Prefix(2 * c.bits, c.length + 1);
      var high := Prefix(2 * c.bits + 1, c.length + 1);
      assert Supernet(low) == c && Supernet(high) == c;
      HalvesCovered(Elements(blocks), c, low, width);
      HalvesCovered(Elements(blocks), c, high, width);
      r := FitsInOneBlock(blocks, low, width);
      var r' := FitsInOneBlock(blocks, high, width);
      assert r in Elements(blocks) && r' in Elements(blocks);
      WithinIsLonger(low, r, width);
      WithinIsLonger(high, r', width);
      if r.length <= c.length {
        NestedOrApart(r, c, width);
      } else if r'.length <= c.length {
        NestedOrApart(r', c, width);
        r := r';
      } else {
        EqualLengthWithin(low, r, width);
        EqualLengthWithin(high, r', width);
        assert Siblings(low, high);
      }
    }
  }

  lemma EqualLengthWithin(p: Prefix, q: Prefix, width: nat)
    requires Valid(p, width) && Valid(q, width) && Within(p, q, width) && p.length == q.length
    ensures p == q
  {
    SameExtent(p, q, width);
  }

  /** Blocks of a canonical list that share an address are the same block. */
  lemma SharedAddress(blocks: seq<Prefix>, p: Prefix, q: Prefix, a: nat, width: nat)
    requires Canonical(blocks, width) && p in blocks && q in blocks
    requires Contains(p, a, width) && Contains(q, a, width)
    ensures p == q
  {
    var i :| 0 <= i < |blocks| && blocks[i] == p;
    var j :| 0 <= j < |blocks| && blocks[j] == q;
    assert p in Elements(blocks) && q in Elements(blocks);
  }

  /** A prefix is "largest" when it fits in the union and its supernet does not (or it is everything). */
  ghost predicate Largest(ps: set<Prefix>, p: Prefix, width: nat) {
    && Valid(p, width)
    && CoversAll(ps, p, width)
    && (p.length == 0 || !CoversAll(ps, Supernet(p), width))
  }

  /** Collapsing any list in any order gives exactly the largest blocks of the union. */
  lemma CanonicalIsLargest(blocks: seq<Prefix>, nets: set<Prefix>, p: Prefix, width: nat)
    requires Canonical(blocks, width) && SameAddresses(Elements(blocks), nets, width)
    ensures p in blocks <==> Largest(nets, p, width)
  {
    if p in blocks {
      assert p in Elements(blocks);
      forall a: nat | Contains(p, a, width)
        ensures Covers(nets, a, width)
      {
        assert Covers(Elements(blocks), a, width);
      }
      if p.length > 0 && CoversAll(nets, Supernet(p), width) {
        WithinSupernet(p, width);
        SameCoversAll(Elements(blocks), nets, Supernet(p), width);
        var r := FitsInOneBlock(blocks, Supernet(p), width);
        SharedAddress(blocks, p, r, First(p, width), width);
        WithinIsLonger(Supernet(p), p, width);
        assert false;
      }
    }
    if Largest(nets, p, width) {
      SameCoversAll(Elements(blocks), nets, p, width);
      var r := FitsInOneBlock(blocks, p, width);
      WithinIsLonger(p, r, width);
      if r.length < p.length {
        WithinSupernet(p, width);
        NestedOrApart(r, Supernet(p), width);
        assert r in Elements(blocks);
        forall a: nat | Contains(Supernet(p), a, width)
          ensures Covers(nets, a, width)
        {
          assert Contains(r, a, width);
          assert Covers(Elements(blocks), a, width);
        }
        assert false;
      }
      EqualLengthWithin(p, r, width);
    }
  }

  lemma SameCoversAll(ps: set<Prefix>, qs: set<Prefix>, p: Prefix, width: nat)
    requires SameAddresses(ps, qs, width) && CoversAll(qs, p, width)
    ensures CoversAll(ps, p, width)
  {
    forall a: nat | Contains(p, a, width)
      ensures Covers(ps, a, width)
    {
      assert Covers(qs, a, width);
    }
  }

  /** Hence order, duplicates and nesting of the input never matter: the collapsed list is unique. */
  lemma CollapseIsUnique(b1: seq<Prefix>, b2: seq<Prefix>, nets1: set<Prefix>, nets2: set<Prefix>, width: nat)
    requires Canonical(b1, width) && Canonical(b2, width)
    requires SameAddresses(Elements(b1), nets1, width) && SameAddresses(Elements(b2), nets2, width)
    requires SameAddresses(nets1, nets2, width)
    ensures b1 == b2
  {
    forall p
      ensures p in b1 <==> p in b2
    {
      CanonicalIsLargest(b1, nets1, p, width);
      TransferAddresses(Elements(b2), nets2, nets1, width);
      CanonicalIsLargest(b2, nets1, p, width);
    }
    SortedListsAgree(b1, b2, width);
  }

  lemma TransferAddresses(ps: set<Prefix>, qs: set<Prefix>, rs: set<Prefix>, width: nat)
    requires SameAddresses(ps, qs, width) || SameAddresses(qs, ps, width)
    requires SameAddresses(qs, rs, width) || SameAddresses(rs, qs, width)
    ensures SameAddresses(ps, rs, width)
  {
    forall a: nat
      ensures Covers(ps, a, width) <==> Covers(rs, a, width)
    {
      assert Covers(ps, a, width) <==> Covers(qs, a, width);
    }
  }

  lemma {:induction false} SortedListsAgree(b1: seq<Prefix>, b2: seq<Prefix>, width: nat)
    requires Canonical(b1, width) && Canonical(b2, width)
    requires forall p :: p in b1 <==> p in b2
    ensures b1 == b2
  {
    assert b2 == [] || b2[0] in b2;
    if b1 == [] {
    } else {
      assert b1[0] in b1;
      assert b2 != [];
      var i :| 0 <= i < |b1| && b1[i] == b2[0];
      var j :| 0 <= j < |b2| && b2[j] == b1[0];
      assert b1[0] in Elements(b1) && b2[0] in Elements(b2);
      assert b1[0] == b2[0];
      CanonicalTail(b1, width);
      CanonicalTail(b2, width);
      forall p
        ensures p in b1[1..] <==> p in b2[1..]
      {
        assert p in b1[1..] <==> p in b1 && p != b1[0];
        assert p in b2[1..] <==> p in b2 && p != b2[0];
      }
      SortedListsAgree(b1[1..], b2[1..], width);
      assert b1 == [b1[0]] + b1[1..];
      assert b2 == [b2[0]] + b2[1..];
    }
  }

  lemma CanonicalTail(b: seq<Prefix>, width: nat)
    requires Canonical(b, width) && b != []
    ensures Canonical(b[1..], width)
    ensures forall p :: p in b[1..] <==> p in b && p != b[0]
  {
    var t := b[1..];
    forall p | p in b
      ensures p in Elements(b)
    {
    }
    assert b[0] in b;
    forall p | p in t
      ensures p in b && p != b[0] && p in Elements(b)
    {
      var i :| 0 <= i < |t| && t[i] == p;
      assert p == b[i + 1];
      assert b[i + 1] in Elements(b);
    }
    assert b == [b[0]] + t;
  }

  // ---- measuring the union ----

  ghost function AddressSet(ps: set<Prefix>, width: nat): set<nat> {
    set a: nat | a < Pow2(width) && Covers(ps, a, width)
  }

  function Total(blocks: seq<Prefix>, width: nat): nat
    requires forall p :: p in blocks ==> p.length <= width
  {
    if blocks == [] then 0 else Size(blocks[0], width) + Total(blocks[1..], width)
  }

  ghost function Interval(lo: nat, n: nat): (r: set<nat>)
    ensures forall a :: a in r <==> lo <= a < lo + n
    ensures |r| == n
  {
    if n == 0 then {} else Interval(lo, n - 1) + {lo + n - 1}
  }

  ghost function Own(p: Prefix, width: nat): set<nat>
    requires p.length <= width
  {
    Interval(First(p, width), Size(p, width))
  }

  /** The first block's addresses are its own: none of them is counted again further on. */
  lemma HeadOrTail(blocks: seq<Prefix>, a: nat, width: nat)
    requires blocks != []
    ensures Covers(Elements(blocks), a, width) <==>
            Contains(blocks[0], a, width) || Covers(Elements(blocks[1..]), a, width)
  {
    var head, tail := blocks[0], blocks[1..];
    assert Elements(blocks) == {head} + Elements(tail);
    hide Elements, Contains;
    if Covers(Elements(tail), a, width) {
      var p :| p in Elements(tail) && Contains(p, a, width);
      assert p in Elements(blocks);
    }
    if Contains(head, a, width) {
      assert head in Elements(blocks);
    }
  }

  lemma HeadApart(blocks: seq<Prefix>, a: nat, width: nat)
    requires Canonical(blocks, width) && blocks != [] && Contains(blocks[0], a, width)
    ensures !Covers(Elements(blocks[1..]), a, width)
  {
  }

  lemma SplitHead(blocks: seq<Prefix>, width: nat)
    requires Canonical(blocks, width) && blocks != [] && blocks[0].length <= width
    ensures AddressSet(Elements(blocks), width) == Own(blocks[0], width) + AddressSet(Elements(blocks[1..]), width)
    ensures Own(blocks[0], width) !! AddressSet(Elements(blocks[1..]), width)
  {
    var head, tail := blocks[0], blocks[1..];
    assert head in blocks && Valid(head, width);
    InsideSpace(head, width);
    hide Canonical, Covers, Elements;
    forall a: nat
      ensures Covers(Elements(blocks), a, width) <==> Contains(head, a, width) || Covers(Elements(tail), a, width)
      ensures Contains(head, a, width) ==> !Covers(Elements(tail), a, width)
    {
      HeadOrTail(blocks, a, width);
      if Contains(head, a, width) {
        HeadApart(blocks, a, width);
      }
    }
  }

  /** Summing the block sizes counts every address of the union exactly once. */
  lemma {:induction false} TotalIsCardinality(blocks: seq<Prefix>, width: nat)
    requires Canonical(blocks, width)
    requires forall p :: p in blocks ==> p.length <= width
    ensures Total(blocks, width) == |AddressSet(Elements(blocks), width)|
  {
    if blocks == [] {
      assert AddressSet(Elements(blocks), width) == {};
    } else {
      CanonicalTail(blocks, width);
      TotalIsCardinality(blocks[1..], width);
      SplitHead(blocks, width);
    }
  }

  lemma {:induction false} TotalSuffix(blocks: seq<Prefix>, i: nat, width: nat)
    requires forall p :: p in blocks ==> p.length <= width
    requires i < |blocks|
    ensures Total(blocks[..i + 1], width) == Total(blocks[..i], width) + Size(blocks[i], width)
  {
    var s := blocks[..i + 1];
    if i == 0 {
      assert s[1..] == [] && blocks[..0] == [];
    } else {
      TotalSuffix(blocks[1..], i - 1, width);
      assert s[1..] == blocks[1..][..i];
      assert blocks[..i][1..] == blocks[1..][..i - 1];
    }
  }

  /** The numerator of `coverage`: how many addresses the prefixes cover between them. */
  method CoveredCount(nets: seq<Prefix>, width: nat) returns (total: nat, blocks: seq<Prefix>)
    requires AllValid(nets, width)
    ensures Canonical(blocks, width) && SameAddresses(Elements(blocks), Elements(nets), width)
    ensures total == |AddressSet(Elements(nets), width)|
  {
    blocks := CollapseAddresses(nets, width);
    forall p | p in blocks
      ensures p.length <= width
    {
      assert p in Elements(blocks);
    }
    total := 0;
    var i := 0;
    while i < |blocks|
      invariant 0 <= i <= |blocks|
      invariant total == Total(blocks[..i], width)
    {
      TotalSuffix(blocks, i, width);
      total := total + Size(blocks[i], width);
      i := i + 1;
    }
    assert blocks[..i] == blocks;
    TotalIsCardinality(blocks, width);
    assert AddressSet(Elements(blocks), width) == AddressSet(Elements(nets), width);
  }

  /** Every address of the family is covered. */
  ghost predicate Everything(ps: set<Prefix>, width: nat) {
    forall a: nat :: a < Pow2(width) ==> Covers(ps, a, width)
  }

  /** Counting is faithful: everything is counted exactly when every address is covered. */
  lemma FullCount(ps: set<Prefix>, width: nat)
    ensures |AddressSet(ps, width)| <= Pow2(width)
    ensures |AddressSet(ps, width)| == Pow2(width) <==> Everything(ps, width)
  {
    var space := Interval(0, Pow2(width));
    SubsetSize(AddressSet(ps, width), space);
    if Everything(ps, width) {
      assert AddressSet(ps, width) == space;
    }
    if AddressSet(ps, width) == space {
      forall a: nat | a < Pow2(width)
        ensures Covers(ps, a, width)
      {
        assert a in space;
      }
    }
  }

  lemma {:induction false} SubsetSize(s: set<nat>, t: set<nat>)
    requires s <= t
    ensures |s| <= |t| && (|s| == |t| <==> s == t)
  {
    if s == {} {
      if |t| == 0 {
        assert t == {};
      }
    } else {
      var x :| x in s;
      SubsetSize(s - {x}, t - {x});
      assert s == (s - {x}) + {x} && t == (t - {x}) + {x};
    }
  }

  /** A part of the list never covers more than the whole. */
  lemma PartCount(part: set<Prefix>, whole: set<Prefix>, width: nat)
    requires part <= whole
    ensures |AddressSet(part, width)| <= |AddressSet(whole, width)|
  {
    forall a | a in AddressSet(part, width)
      ensures a in AddressSet(whole, width)
    {
      var p :| p in part && Contains(p, a, width);
      assert p in whole;
    }
    SubsetSize(AddressSet(part, width), AddressSet(whole, width));
  }
}
