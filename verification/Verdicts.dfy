/** What the verdict of the scope panel means, in terms of the addresses that go through the tunnel. */
module Verdicts {
  import opened Options
  import opened Powers
  import opened Prefixes
  import opened Collapse
  import opened Rounding
  import opened Scope
  import Tails

  lemma FullMeansSmallShortfall(family: Family, nets: seq<Prefix>, width: nat)
    requires width == family.Width() && AllValid(nets, width)
    ensures |AddressSet(Elements(nets), width)| <= Pow2(width)
    ensures Verdict(family, nets) == FULL <==>
            nets != [] && (Pow2(width) - |AddressSet(Elements(nets), width)|) * Pow2(54) <= Pow2(width)
  {
    hide Pow2, AddressSet, Elements;
    FullCount(Elements(nets), width);
    RoundsToOne(|AddressSet(Elements(nets), width)|, Pow2(width));
  }

  lemma NoneCovered(width: nat)
    ensures AddressSet(Elements([]), width) == {}
  {
  }

  lemma NoShortfall(u: nat, width: nat, digits: nat)
    requires width < digits
    ensures u * Pow2(digits) <= Pow2(width) <==> u == 0
  {
    Pow2Grows(width, digits);
    if u > 0 {
      Ordered(Pow2(digits), 1, u);
    }
  }

  lemma SomeShortfall(u: nat, spare: nat, digits: nat)
    ensures u * Pow2(digits) <= Pow2(spare + digits) <==> u <= Pow2(spare)
  {
    Pow2Adds(spare, digits);
    Comparable(u, Pow2(spare), Pow2(digits));
  }

  /** IPv4: FULL says that every one of the 2^32 addresses is in a counted tunnel prefix. */
  lemma Ipv4Full(nets: seq<Prefix>)
    requires AllValid(nets, V4.Width())
    ensures Verdict(V4, nets) == FULL <==> Everything(Elements(nets), V4.Width())
  {
    var width := V4.Width();
    hide Pow2, AddressSet, Elements, Verdict, AllValid;
    FullMeansSmallShortfall(V4, nets, width);
    FullCount(Elements(nets), width);
    NoneCovered(width);
    NoShortfall(Pow2(width) - |AddressSet(Elements(nets), width)|, width, 54);
  }

  lemma FullWithSlack(family: Family, nets: seq<Prefix>, width: nat, spare: nat)
    requires width == family.Width() == spare + 54 && AllValid(nets, width)
    ensures Verdict(family, nets) == FULL <==> Pow2(width) - |AddressSet(Elements(nets), width)| <= Pow2(spare)
  {
    hide Pow2, AddressSet, Elements, Verdict, AllValid;
    FullMeansSmallShortfall(family, nets, width);
    NoneCovered(width);
    Pow2Grows(spare, width);
    SomeShortfall(Pow2(width) - |AddressSet(Elements(nets), width)|, spare, 54);
  }

  /** IPv6: rounding lets at most 2^74 of the 2^128 addresses go unnoticed, and no more than that. */
  lemma Ipv6Full(nets: seq<Prefix>)
    requires AllValid(nets, V6.Width())
    ensures Verdict(V6, nets) == FULL <==>
            Pow2(V6.Width()) - |AddressSet(Elements(nets), V6.Width())| <= Pow2(74)
  {
    FullWithSlack(V6, nets, V6.Width(), 74);
  }

  lemma Comparable(a: nat, b: nat, c: nat)
    requires c > 0
    ensures a * c <= b * c <==> a <= b
  {
    if a <= b {
      Ordered(c, a, b);
    } else {
      Ordered(c, b + 1, a);
      assert (b + 1) * c == b * c + c;
    }
  }

  lemma EverythingIsFull(family: Family, nets: seq<Prefix>)
    requires AllValid(nets, family.Width()) && Everything(Elements(nets), family.Width())
    ensures Verdict(family, nets) == FULL
  {
    FullCount(Elements(nets), family.Width());
    if family.V4? {
      Ipv4Full(nets);
    } else {
      Ipv6Full(nets);
    }
  }

  lemma WholeSpaceCovers(nets: seq<Prefix>, width: nat)
    requires Prefix(0, 0) in nets || (Prefix(0, 1) in nets && Prefix(1, 1) in nets)
    requires width > 0
    ensures Everything(Elements(nets), width)
  {
    assert Pow2(width) == 2 * Pow2(width - 1);
    forall a: nat | a < Pow2(width)
      ensures Covers(Elements(nets), a, width)
    {
      if Prefix(0, 0) in nets {
        assert Prefix(0, 0) in Elements(nets) && Contains(Prefix(0, 0), a, width);
      } else {
        var half := Prefix(if a < Pow2(width - 1) then 0 else 1, 1);
        assert half in Elements(nets) && Contains(half, a, width);
      }
    }
  }

  lemma CountedRedirectIsFull(family: Family, entries: seq<Entry>, device: string, parse: Parser)
    requires Reads(parse, family)
    requires var d := Destinations(CountedRows(family, entries, device, parse));
             "default" in d || {family.LowHalf(), family.HighHalf()} <= d
    ensures Verdict(family, Counted(family, entries, device, parse)) == FULL
  {
    var nets := Counted(family, entries, device, parse);
    CountedAreValid(family, entries, device, parse);
    hide CountedRows, Networks, Verdict;
    RowCounts(family, entries, "default", Prefix(0, 0), device, parse);
    RowCounts(family, entries, family.LowHalf(), Prefix(0, 1), device, parse);
    RowCounts(family, entries, family.HighHalf(), Prefix(1, 1), device, parse);
    WholeSpaceCovers(nets, family.Width());
    EverythingIsFull(family, nets);
  }

  /** A default through the tunnel, or the pair `redirect-gateway` installs, always reads as FULL. */
  lemma RedirectForcesFull(family: Family, entries: seq<Entry>, device: string, parse: Parser)
    requires Reads(parse, family)
    requires Sends(family, entries, "default", device, parse) || SendsHalves(family, entries, device, parse)
    ensures AnswerOf(family, entries, device, parse, Any()).mode == FULL
  {
    CountedDestination(family, entries, "default", device, parse);
    HalvesCounted(family, entries, device, parse);
    hide CountedRows, Destinations, Sends, SendsHalves, AnswerOf, Counted;
    CountedRedirectIsFull(family, entries, device, parse);
    AllAnswers(family, entries, device, parse);
  }

  lemma RowCounts(family: Family, entries: seq<Entry>, dst: string, p: Prefix, device: string, parse: Parser)
    requires NetworkOf(family, dst, parse) == Some(p)
    ensures dst in Destinations(CountedRows(family, entries, device, parse)) ==> p in Counted(family, entries, device, parse)
  {
    var rows := CountedRows(family, entries, device, parse);
    NetworksIn(family, rows, p, parse);
    hide CountedRows, Networks;
    if dst in Destinations(rows) {
      var e :| e in rows && e.dst == dst;
    }
  }

  /** The public prefixes never cover more than all of them together. */
  lemma PublicIsPart(family: Family, nets: seq<Prefix>, isPublic: Prefix -> bool)
    requires AllValid(nets, family.Width())
    ensures |AddressSet(Elements(Public(nets, isPublic)), family.Width())| <= |AddressSet(Elements(nets), family.Width())|
  {
    PartCount(Elements(Public(nets, isPublic)), Elements(nets), family.Width());
  }

  // ---- one row more ----

  function RoutesWith(family: Family, device: string, parse: Parser, only: Prefix -> bool): Entry -> bool {
    (e: Entry) => RoutesSome(family, e, device, parse, only)
  }

  lemma RoutingCounts(family: Family, entries: seq<Entry>, device: string, parse: Parser, only: Prefix -> bool)
    ensures |Routing(family, entries, device, parse, only)| == |Tails.Filter(entries, RoutesWith(family, device, parse, only))|
  {
    Tails.FilterLength(entries, RoutesWith(family, device, parse, only));
    hide RoutesSome;
    assert Routing(family, entries, device, parse, only) == Tails.Places(entries, RoutesWith(family, device, parse, only));
  }

  /** A row more, wherever it stands: one more if it routes. */
  lemma OneRowMore(family: Family, a: seq<Entry>, x: Entry, b: seq<Entry>, device: string, parse: Parser, only: Prefix -> bool)
    ensures |Routing(family, a + [x] + b, device, parse, only)| ==
            |Routing(family, a + b, device, parse, only)| + if RoutesSome(family, x, device, parse, only) then 1 else 0
  {
    var p := RoutesWith(family, device, parse, only);
    RoutingCounts(family, a + [x] + b, device, parse, only);
    RoutingCounts(family, a + b, device, parse, only);
    assert [x][..0] == [];
    assert |Tails.Filter([x], p)| == if RoutesSome(family, x, device, parse, only) then 1 else 0;
    hide Routing, Tails.Filter;
    Tails.FilterAppend(a + [x], b, p);
    Tails.FilterAppend(a, [x], p);
    Tails.FilterAppend(a, b, p);
  }

  lemma OneRowReaches(family: Family, a: seq<Entry>, x: Entry, b: seq<Entry>, at: nat, device: string, parse: Parser, only: Prefix -> bool)
    ensures Reaches(family, a + [x] + b, at, device, parse, only) <==>
            || Reaches(family, a + b, at, device, parse, only)
            || (RoutesSome(family, x, device, parse, only) && Contains(Block(family, x, parse).value, at, family.Width()))
  {
    var all, rest := a + [x] + b, a + b;
    assert all[|a|] == x;
    forall e
      ensures e in all <==> e in rest || e == x
    {
    }
    hide Contains, Block, Routes;
  }

  /**
   A row that is not on the tunnel, cannot be read, or names a network inside 169.254.0.0/16, 224.0.0.0/4, fe80::/10
   or ff00::/8 changes nothing, wherever it stands.
   */
  lemma IgnoredRow(family: Family, a: seq<Entry>, x: Entry, b: seq<Entry>, device: string, parse: Parser)
    requires || x.dev != device || x.dst == "" || device == "" || Block(family, x, parse) == None
             || StaysLocal(family, Block(family, x, parse).value)
    ensures AnswerOf(family, a + [x] + b, device, parse, Any()) == AnswerOf(family, a + b, device, parse, Any())
  {
    OneRowMore(family, a, x, b, device, parse, Any());
    assert !RoutesSome(family, x, device, parse, Any());
    hide Reaches, RoutesSome, Routing;
    forall at: nat
      ensures Reaches(family, a + [x] + b, at, device, parse, Any()) == Reaches(family, a + b, at, device, parse, Any())
    {
      OneRowReaches(family, a, x, b, at, device, parse, Any());
    }
    assert Reached(family, a + [x] + b, device, parse, Any()) == Reached(family, a + b, device, parse, Any());
  }

  /** The addresses of a row's block. */
  ghost function Addresses(family: Family, x: Entry, parse: Parser): set<nat>
    requires Block(family, x, parse).Some?
  {
    set at: nat | at < Pow2(family.Width()) && Contains(Block(family, x, parse).value, at, family.Width())
  }

  /** Any other row is one prefix more and adds its addresses: the family is no longer NONE. */
  lemma RoutedRow(family: Family, a: seq<Entry>, x: Entry, b: seq<Entry>, device: string, parse: Parser)
    requires x.dev == device && x.dst != "" && device != "" && Block(family, x, parse).Some?
    requires !StaysLocal(family, Block(family, x, parse).value)
    ensures var (more, before) := (AnswerOf(family, a + [x] + b, device, parse, Any()), AnswerOf(family, a + b, device, parse, Any()));
            more.prefixes == before.prefixes + 1 && more.mode != NONE
    ensures Reached(family, a + [x] + b, device, parse, Any()) ==
            Reached(family, a + b, device, parse, Any()) + Addresses(family, x, parse)
  {
    OneRowMore(family, a, x, b, device, parse, Any());
    assert RoutesSome(family, x, device, parse, Any());
    hide Reaches, RoutesSome, Routing, Quotient, AtLeastOne, StaysLocal, Block, Pow2, Contains;
    forall at: nat
      ensures Reaches(family, a + [x] + b, at, device, parse, Any()) <==>
              Reaches(family, a + b, at, device, parse, Any()) || Contains(Block(family, x, parse).value, at, family.Width())
    {
      OneRowReaches(family, a, x, b, at, device, parse, Any());
    }
  }

  /** A table of such rows only sends nothing through the tunnel, and no other table does. */
  lemma NoneExactly(family: Family, entries: seq<Entry>, device: string, parse: Parser)
    ensures AnswerOf(family, entries, device, parse, Any()).mode == NONE <==>
            forall i :: 0 <= i < |entries| ==>
              || entries[i].dev != device || entries[i].dst == "" || device == "" || Block(family, entries[i], parse) == None
              || StaysLocal(family, Block(family, entries[i], parse).value)
  {
    var routing := Routing(family, entries, device, parse, Any());
    forall i | 0 <= i < |entries|
      ensures RoutesSome(family, entries[i], device, parse, Any()) <==>
              !(|| entries[i].dev != device || entries[i].dst == "" || device == "" || Block(family, entries[i], parse) == None
                || StaysLocal(family, Block(family, entries[i], parse).value))
    {
      hide StaysLocal, Block;
    }
    hide StaysLocal, Block, RoutesSome;
    assert |routing| == 0 <==> routing == {};
    if i :| 0 <= i < |entries| && RoutesSome(family, entries[i], device, parse, Any()) {
      assert i in routing;
    }
  }

  /** The mode is FULL if and only if some row routes and, of all addresses, none is left out; of IPv6 at most 2^74 are. */
  lemma FullExactly(family: Family, entries: seq<Entry>, device: string, parse: Parser)
    requires Reads(parse, family)
    ensures AnswerOf(family, entries, device, parse, Any()).mode == FULL <==>
            Pow2(family.Width()) - |Reached(family, entries, device, parse, Any())| <= if family.V4? then 0 else Pow2(74)
  {
    var nets := Counted(family, entries, device, parse);
    CountedAnswers(family, entries, device, parse, Any());
    CountedReaches(family, entries, device, parse, Any());
    Tails.FilterAll(nets, Any());
    CountedAreValid(family, entries, device, parse);
    hide AnswerOf, Reached, Counted, AddressSet, Verdict, Pow2, Elements;
    FullCount(Elements(nets), family.Width());
    if family.V4? {
      Ipv4Full(nets);
    } else {
      Ipv6Full(nets);
    }
  }
}
