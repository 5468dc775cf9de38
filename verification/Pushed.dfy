/**
 What the server pushed against what the kernel holds, for the one directive that is not a prefix:
 `redirect-gateway`.  It must never be reported as installed on a table the scope panel calls split.
 */
module Pushed {
  import opened Options
  import opened Powers
  import opened Prefixes
  import opened Collapse
  import opened Scope
  import opened Verdicts
  import Sorting
  import Tails

  datatype PushedRoute = PushedRoute(option: string, network: Option<Prefix>, catchAll: bool)

  const EVERYTHING := Prefix(0, 0)
  const LOW := Prefix(0, 1)
  const HIGH := Prefix(1, 1)

  /** The rows shown as routes: those of the tunnel device, and the host route pinned to the concentrator. */
  predicate Shown(e: Entry, device: string, remote: string) {
    e.dst != "" && e.dev != "" && (e.dev == device || (remote != "" && e.dst == remote))
  }

  /** The networks of the shown rows: what the push is compared against. */
  function Present(entries: seq<Entry>, device: string, remote: string, parse: Parser): set<Prefix> {
    set e | e in entries && Shown(e, device, remote) && NetworkOf(V4, e.dst, parse).Some? :: NetworkOf(V4, e.dst, parse).value
  }

  /** The loop of `parse_routes`, keeping only each row's network. */
  method ReadRoutes(entries: seq<Entry>, device: string, remote: string, parse: Parser) returns (present: set<Prefix>, rows: nat)
    ensures present == Present(entries, device, remote, parse)
    ensures rows == |ShownRows(entries, device, remote)|
    ensures rows == 0 <==> forall e :: e in entries ==> !Shown(e, device, remote)
  {
    present, rows := {}, 0;
    var i := 0;
    while i < |entries|
      invariant 0 <= i <= |entries|
      invariant present == Present(entries[..i], device, remote, parse)
      invariant rows == |ShownRows(entries[..i], device, remote)|
    {
      var e := entries[i];
      assert entries[..i + 1] == entries[..i] + [e];
      assert entries[..i + 1][..i] == entries[..i];
      PresentGrows(entries[..i], e, device, remote, parse);
      i := i + 1;
      if Shown(e, device, remote) {
        rows := rows + 1;
        var network := NetworkOf(V4, e.dst, parse);
        if network.Some? {
          present := present + {network.value};
        }
      }
    }
    assert entries[..i] == entries;
    NoneShown(entries, device, remote);
  }

  lemma {:induction false} NoneShown(entries: seq<Entry>, device: string, remote: string)
    ensures ShownRows(entries, device, remote) == [] <==> forall e :: e in entries ==> !Shown(e, device, remote)
  {
    if entries == [] {
    } else {
      var init, last := entries[..|entries| - 1], entries[|entries| - 1];
      assert entries == init + [last];
      NoneShown(init, device, remote);
    }
  }

  lemma PresentGrows(entries: seq<Entry>, e: Entry, device: string, remote: string, parse: Parser)
    ensures Present(entries + [e], device, remote, parse) == Present(entries, device, remote, parse)
          + if Shown(e, device, remote) && NetworkOf(V4, e.dst, parse).Some? then {NetworkOf(V4, e.dst, parse).value} else {}
  {
    var more := entries + [e];
    assert e in more;
    forall x | x in entries
      ensures x in more
    {
    }
  }

  function ShownRows(entries: seq<Entry>, device: string, remote: string): seq<Entry> {
    if entries == [] then []
    else
      var e := entries[|entries| - 1];
      ShownRows(entries[..|entries| - 1], device, remote) + if Shown(e, device, remote) then [e] else []
  }

  /** `_installed`. */
  predicate Installed(route: PushedRoute, present: set<Prefix>) {
    if route.catchAll then EVERYTHING in present || (LOW in present && HIGH in present)
    else route.network.Some? && route.network.value in present
  }

  function Missing(present: set<Prefix>): PushedRoute -> bool {
    (r: PushedRoute) => !Installed(r, present)
  }

  /** Readable routes by address and then length; the others after them. */
  function Place(r: PushedRoute): (int, int, int) {
    if r.network.None? || r.network.value.length > 32 then (1, 0, 0)
    else (0, First(r.network.value, 32), r.network.value.length)
  }

  function ByPlace(): (PushedRoute, PushedRoute) -> bool {
    (a: PushedRoute, b: PushedRoute) =>
      var (x, y) := (Place(a), Place(b));
      x.0 < y.0 || (x.0 == y.0 && (x.1 < y.1 || (x.1 == y.1 && x.2 <= y.2)))
  }

  /** `report`: the pushed routes that never arrived, sorted.  No routes at all is no answer, not "all rejected". */
  method Rejected(pushed: seq<PushedRoute>, present: set<Prefix>, rows: nat) returns (rejected: seq<PushedRoute>)
    ensures rows == 0 ==> rejected == []
    ensures rows > 0 ==> Refused(rejected, pushed, present)
  {
    if rows == 0 {
      return [];
    }
    rejected := [];
    for i := 0 to |pushed|
      invariant rejected == Tails.Filter(pushed[..i], Missing(present))
    {
      assert pushed[..i + 1][..i] == pushed[..i];
      if !Installed(pushed[i], present) {
        rejected := rejected + [pushed[i]];
      }
    }
    assert pushed[..|pushed|] == pushed;
    hide Missing, Place;
    PlacesOrdered();
    Sorting.SortSorted(rejected, ByPlace());
    Sorting.SortSame(rejected, ByPlace());
    FilterCounts(pushed, Missing(present));
    rejected := Sorting.Sort(rejected, ByPlace());
  }

  /** In order, and every pushed route as often as it was pushed if it is not installed, and not at all if it is. */
  ghost predicate Refused(rejected: seq<PushedRoute>, pushed: seq<PushedRoute>, present: set<Prefix>) {
    && Sorting.Sorted(rejected, ByPlace())
    && forall r :: multiset(rejected)[r] == if Missing(present)(r) then multiset(pushed)[r] else 0
  }

  lemma {:induction false} FilterCounts(pushed: seq<PushedRoute>, keep: PushedRoute -> bool)
    ensures forall r :: multiset(Tails.Filter(pushed, keep))[r] == if keep(r) then multiset(pushed)[r] else 0
  {
    if pushed == [] {
    } else {
      var init, last := pushed[..|pushed| - 1], pushed[|pushed| - 1];
      assert pushed == init + [last];
      FilterCounts(init, keep);
      assert multiset(pushed) == multiset(init) + multiset{last};
    }
  }

  lemma PlacesOrdered()
    ensures Sorting.TotalOrder(ByPlace())
  {
    hide Place;
  }

  // ---- of the rows themselves ----

  /** A row of the tunnel, or the host route to the concentrator, names this network. */
  ghost predicate HasRow(entries: seq<Entry>, device: string, remote: string, parse: Parser, p: Prefix) {
    exists e :: e in entries && e.dst != "" && e.dev != "" && (e.dev == device || (remote != "" && e.dst == remote))
                && Block(V4, e, parse) == Some(p)
  }

  /** A directive for everything has arrived as one route or as two halves, any other as the network it names. */
  ghost predicate Arrived(r: PushedRoute, entries: seq<Entry>, device: string, remote: string, parse: Parser) {
    if r.catchAll then
      || HasRow(entries, device, remote, parse, Prefix(0, 0))
      || (HasRow(entries, device, remote, parse, Prefix(0, 1)) && HasRow(entries, device, remote, parse, Prefix(1, 1)))
    else r.network.Some? && HasRow(entries, device, remote, parse, r.network.value)
  }

  lemma PresentHasRow(entries: seq<Entry>, device: string, remote: string, parse: Parser, p: Prefix)
    ensures p in Present(entries, device, remote, parse) <==> HasRow(entries, device, remote, parse, p)
  {
    forall e: Entry
      ensures NetworkOf(V4, e.dst, parse) == Block(V4, e, parse)
    {
      CountsIsRoutes(V4, e, device, parse);
    }
    hide NetworkOf, Block;
  }

  /** Each pushed route is reported as often as it was pushed if it has not arrived, and not at all if it has. */
  lemma RejectedExactly(rejected: seq<PushedRoute>, pushed: seq<PushedRoute>, entries: seq<Entry>, device: string, remote: string,
                        parse: Parser, r: PushedRoute)
    requires Refused(rejected, pushed, Present(entries, device, remote, parse))
    ensures multiset(rejected)[r] == if Arrived(r, entries, device, remote, parse) then 0 else multiset(pushed)[r]
  {
    PresentHasRow(entries, device, remote, parse, Prefix(0, 0));
    PresentHasRow(entries, device, remote, parse, Prefix(0, 1));
    PresentHasRow(entries, device, remote, parse, Prefix(1, 1));
    if r.network.Some? {
      PresentHasRow(entries, device, remote, parse, r.network.value);
    }
    hide Present, HasRow, ByPlace;
    assert Missing(Present(entries, device, remote, parse))(r) == !Arrived(r, entries, device, remote, parse);
  }

  /** Readable routes come first, by address and then by length. */
  lemma RejectedInOrder(rejected: seq<PushedRoute>, pushed: seq<PushedRoute>, present: set<Prefix>, i: nat, j: nat)
    requires Refused(rejected, pushed, present) && i < j < |rejected|
    ensures var (p, q) := (rejected[i].network, rejected[j].network);
            q.Some? && q.value.length <= 32 ==>
              && p.Some? && p.value.length <= 32
              && (First(p.value, 32) < First(q.value, 32)
                  || (First(p.value, 32) == First(q.value, 32) && p.value.length <= q.value.length))
  {
    assert ByPlace()(rejected[i], rejected[j]);
    hide First;
  }

  ghost predicate Wide(p: Prefix) {
    p == EVERYTHING || p == LOW || p == HIGH
  }

  ghost function TunnelNetworks(entries: seq<Entry>, device: string, parse: Parser): seq<Prefix> {
    Counted(V4, entries, device, parse)
  }

  const REDIRECT := PushedRoute("redirect-gateway def1", None, true)

  /** The two panels agree on this table: the directive counts as installed only if the scope is FULL. */
  ghost predicate Agree(entries: seq<Entry>, device: string, remote: string, parse: Parser) {
    Installed(REDIRECT, Present(entries, device, remote, parse)) ==>
    AnswerOf(V4, entries, device, parse, Any()).mode == FULL
  }

  lemma NotEgress(p: Prefix)
    requires Wide(p)
    ensures !Within(p, V4.LinkLocal(), 32) && !Within(p, V4.Multicast(), 32)
  {
    ShorterIsNotWithin(p, V4.LinkLocal(), 32);
    ShorterIsNotWithin(p, V4.Multicast(), 32);
  }

  lemma ShorterIsNotWithin(p: Prefix, q: Prefix, width: nat)
    requires p.length < q.length <= width
    ensures !Within(p, q, width)
  {
    Pow2Grows(width - q.length, width - p.length);
  }

  /** With a concentrator address that names a host, every table makes the two panels agree. */
  lemma HostAddressAgrees(entries: seq<Entry>, device: string, remote: string, parse: Parser)
    requires Reads(parse, V4)
    requires NetworkOf(V4, remote, parse).Some? ==> !Wide(NetworkOf(V4, remote, parse).value)
    ensures Agree(entries, device, remote, parse)
  {
    var nets := TunnelNetworks(entries, device, parse);
    var present := Present(entries, device, remote, parse);
    AllAnswers(V4, entries, device, parse);
    hide AnswerOf;
    forall p | Wide(p) && p in present
      ensures p in nets
    {
      var e :| e in entries && Shown(e, device, remote) && NetworkOf(V4, e.dst, parse) == Some(p);
      NotEgress(p);
      assert Counts(V4, e, device, parse);
      CountedIn(V4, entries, p, device, parse);
    }
    if EVERYTHING in present || (LOW in present && HIGH in present) {
      assert Wide(EVERYTHING) && Wide(LOW) && Wide(HIGH);
      CountedAreValid(V4, entries, device, parse);
      WholeSpaceCovers(nets, 32);
      EverythingIsFull(V4, nets);
    }
  }

  /** A table on which they would disagree: the wide route is the bypass row, outside the tunnel. */
  ghost function Misleading(device: string, remote: string, p: Prefix): seq<Entry> {
    var bypass := Entry(remote, device + "x", "");
    if p == EVERYTHING then [bypass]
    else if p == LOW then [bypass, Entry("128.0.0.0/1", device, "")]
    else [bypass, Entry("0.0.0.0/1", device, "")]
  }

  lemma HalfIsNotFull(nets: seq<Prefix>, half: Prefix)
    requires half == LOW || half == HIGH
    requires forall p :: p in nets ==> p == half
    ensures Verdict(V4, nets) != FULL
  {
    var width := V4.Width();
    assert Pow2(width) == 2 * Pow2(width - 1);
    var a := if half == LOW then Pow2(width - 1) else 0;
    assert Valid(half, width) && !Contains(half, a, width);
    assert !Covers(Elements(nets), a, width);
    Ipv4Full(nets);
  }

  ghost predicate WideAddress(device: string, remote: string, p: Prefix, parse: Parser) {
    Reads(parse, V4) && device != "" && remote != "" && Wide(p) && NetworkOf(V4, remote, parse) == Some(p)
  }

  lemma MisleadingPresent(device: string, remote: string, p: Prefix, parse: Parser)
    requires WideAddress(device, remote, p, parse)
    ensures p in Present(Misleading(device, remote, p), device, remote, parse)
    ensures p != EVERYTHING ==> {LOW, HIGH} <= Present(Misleading(device, remote, p), device, remote, parse)
  {
    var entries := Misleading(device, remote, p);
    assert entries[0] in entries && Shown(entries[0], device, remote);
    if p != EVERYTHING {
      assert entries[1] in entries && Shown(entries[1], device, remote);
      assert NetworkOf(V4, entries[1].dst, parse) == Some(if p == LOW then HIGH else LOW);
    }
  }

  lemma BypassNotCounted(device: string, remote: string, parse: Parser)
    ensures !Counts(V4, Entry(remote, device + "x", ""), device, parse)
  {
    assert |device + "x"| == |device| + 1;
  }

  lemma MisleadingTunnel(device: string, remote: string, p: Prefix, q: Prefix, parse: Parser)
    requires WideAddress(device, remote, p, parse)
    requires q in TunnelNetworks(Misleading(device, remote, p), device, parse)
    ensures q == if p == LOW then HIGH else LOW
  {
    var entries := Misleading(device, remote, p);
    BypassNotCounted(device, remote, parse);
    hide Counts, CountedRows, Networks;
    CountedIn(V4, entries, q, device, parse);
    var e :| e in entries && Counts(V4, e, device, parse) && NetworkOf(V4, e.dst, parse) == Some(q);
    assert e == entries[1];
  }

  lemma WideAddressMisleads(device: string, remote: string, p: Prefix, parse: Parser)
    requires WideAddress(device, remote, p, parse)
    ensures !Agree(Misleading(device, remote, p), device, remote, parse)
  {
    var entries := Misleading(device, remote, p);
    var nets := TunnelNetworks(entries, device, parse);
    AllAnswers(V4, entries, device, parse);
    hide AnswerOf;
    MisleadingPresent(device, remote, p, parse);
    var half := if p == LOW then HIGH else LOW;
    forall q | q in nets
      ensures q == half
    {
      MisleadingTunnel(device, remote, p, q, parse);
    }
    HalfIsNotFull(nets, half);
  }

  /** So the panels agree on every table exactly when the concentrator's address is not itself a wide network. */
  lemma AgreeExactly(device: string, remote: string, parse: Parser)
    requires Reads(parse, V4) && device != "" && remote != ""
    ensures (forall entries :: Agree(entries, device, remote, parse)) <==>
            (NetworkOf(V4, remote, parse).Some? ==> !Wide(NetworkOf(V4, remote, parse).value))
  {
    if NetworkOf(V4, remote, parse).Some? && Wide(NetworkOf(V4, remote, parse).value) {
      WideAddressMisleads(device, remote, NetworkOf(V4, remote, parse).value, parse);
    } else {
      forall entries
        ensures Agree(entries, device, remote, parse)
      {
        HostAddressAgrees(entries, device, remote, parse);
      }
    }
  }
}
