/**
 What goes through the tunnel: the verdict of one address family, computed from its routing table.

 Reading an address out of text is foreign code: it is the parameter `parse`, of which only the spellings
 the module itself uses are assumed (`Reads`).  Which networks are public is the parameter `isPublic`.
 */
module Scope {
  import opened Options
  import opened Powers
  import opened Prefixes
  import opened Collapse
  import opened Rounding
  import Tails

  datatype Family = V4 | V6 {
    function Width(): nat {
      if V4? then 32 else 128
    }

    /** What "default" stands for, and the two halves `redirect-gateway` installs instead of it. */
    function All(): string {
      if V4? then "0.0.0.0/0" else "::/0"
    }

    function LowHalf(): string {
      if V4? then "0.0.0.0/1" else "::/1"
    }

    function HighHalf(): string {
      if V4? then "128.0.0.0/1" else "8000::/1"
    }

    /** 169.254.0.0/16 and fe80::/10. */
    function LinkLocal(): Prefix {
      if V4? then Prefix(0xA9FE, 16) else Prefix(0x3FA, 10)
    }

    /** 224.0.0.0/4 and ff00::/8. */
    function Multicast(): Prefix {
      if V4? then Prefix(0xE, 4) else Prefix(0xFF, 8)
    }
  }

  /** One row of `ip -json route show`; a missing field reads as "". */
  datatype Entry = Entry(dst: string, dev: string, gateway: string)

  datatype Mode = FULL | SPLIT | NONE

  datatype FamilyScope = FamilyScope(
    mode: Mode,
    coverage: Double,
    prefixes: nat,
    blocks: nat,
    defaultViaTunnel: bool,
    redirectPair: bool,
    egressDevice: Option<string>,
    publicPrefixes: nat,
    publicBlocks: nat,
    publicCoverage: Double)

  type Parser = string -> Option<Prefix>

  /** What is assumed of the address parser. */
  ghost predicate Reads(parse: Parser, family: Family) {
    && (forall s {:trigger parse(s)} :: parse(s).Some? ==> Valid(parse(s).value, family.Width()))
    && parse(family.All()) == Some(Prefix(0, 0))
    && parse(family.LowHalf()) == Some(Prefix(0, 1))
    && parse(family.HighHalf()) == Some(Prefix(1, 1))
  }

  function NetworkOf(family: Family, dst: string, parse: Parser): Option<Prefix> {
    parse(if dst == "default" then family.All() else dst)
  }

  /** A row that counts: on the tunnel device, readable, neither link-local nor multicast. */
  predicate Counts(family: Family, e: Entry, device: string, parse: Parser) {
    && e.dst != "" && e.dev != "" && e.dev == device
    && NetworkOf(family, e.dst, parse).Some?
    && var net := NetworkOf(family, e.dst, parse).value;
    && !Within(net, family.LinkLocal(), family.Width())
    && !Within(net, family.Multicast(), family.Width())
  }

  // ---- the same, of the fields and the addresses ----

  predicate Inside(p: Prefix, low: nat, high: nat, width: nat) {
    p.length <= width && low <= First(p, width) && Last(p, width) <= high
  }

  /** Link-local or multicast: in 169.254.0.0/16 or 224.0.0.0/4, in fe80::/10 or ff00::/8. */
  predicate StaysLocal(family: Family, p: Prefix) {
    match family
    case V4 =>
      || Inside(p, 0xA9FE_0000, 0xA9FE_FFFF, 32)
      || Inside(p, 0xE000_0000, 0xEFFF_FFFF, 32)
    case V6 =>
      || Inside(p, 0xFE80_0000_0000_0000_0000_0000_0000_0000, 0xFEBF_FFFF_FFFF_FFFF_FFFF_FFFF_FFFF_FFFF, 128)
      || Inside(p, 0xFF00_0000_0000_0000_0000_0000_0000_0000, 0xFFFF_FFFF_FFFF_FFFF_FFFF_FFFF_FFFF_FFFF, 128)
  }

  function Block(family: Family, e: Entry, parse: Parser): Option<Prefix> {
    parse(if e.dst != "default" then e.dst else if family.V4? then "0.0.0.0/0" else "::/0")
  }

  /** The row sends addresses out through the tunnel. */
  predicate Routes(family: Family, e: Entry, device: string, parse: Parser) {
    && e.dev == device && e.dev != "" && e.dst != ""
    && Block(family, e, parse).Some? && !StaysLocal(family, Block(family, e, parse).value)
  }

  /** The same for some of the blocks only. */
  predicate RoutesSome(family: Family, e: Entry, device: string, parse: Parser, only: Prefix -> bool) {
    Routes(family, e, device, parse) && only(Block(family, e, parse).value)
  }

  ghost function Routing(family: Family, entries: seq<Entry>, device: string, parse: Parser, only: Prefix -> bool): set<nat> {
    set i | 0 <= i < |entries| && RoutesSome(family, entries[i], device, parse, only)
  }

  ghost predicate Reaches(family: Family, entries: seq<Entry>, a: nat, device: string, parse: Parser, only: Prefix -> bool) {
    exists e :: e in entries && RoutesSome(family, e, device, parse, only)
                && Contains(Block(family, e, parse).value, a, family.Width())
  }

  /** The addresses that go through the tunnel. */
  ghost function Reached(family: Family, entries: seq<Entry>, device: string, parse: Parser, only: Prefix -> bool): set<nat> {
    set a: nat | a < Pow2(family.Width()) && Reaches(family, entries, a, device, parse, only)
  }

  datatype Answer = Answer(mode: Mode, coverage: Double, prefixes: nat)

  /** What a table comes to: how many rows route, and the rounded share of the addresses they reach. */
  ghost function AnswerOf(family: Family, entries: seq<Entry>, device: string, parse: Parser, only: Prefix -> bool): Answer {
    var n := |Routing(family, entries, device, parse, only)|;
    if n == 0 then Answer(NONE, Double(0, 0), 0)
    else
      var share := Quotient(|Reached(family, entries, device, parse, only)|, Pow2(family.Width()));
      Answer(if AtLeastOne(share) then FULL else SPLIT, share, n)
  }

  /** Some row routes this destination. */
  ghost predicate Sends(family: Family, entries: seq<Entry>, dst: string, device: string, parse: Parser) {
    exists e :: e in entries && Routes(family, e, device, parse) && e.dst == dst
  }

  ghost predicate SendsHalves(family: Family, entries: seq<Entry>, device: string, parse: Parser) {
    match family
    case V4 => Sends(family, entries, "0.0.0.0/1", device, parse) && Sends(family, entries, "128.0.0.0/1", device, parse)
    case V6 => Sends(family, entries, "::/1", device, parse) && Sends(family, entries, "8000::/1", device, parse)
  }

  function Any(): Prefix -> bool {
    (p: Prefix) => true
  }

  /** The first row by which the family leaves otherwise. */
  ghost predicate LeavesBy(entries: seq<Entry>, device: string, egress: Option<string>) {
    match egress
    case None => forall i :: 0 <= i < |entries| && entries[i].dst == "default" ==> entries[i].dev in {"", device}
    case Some(dev) =>
      exists i :: 0 <= i < |entries| && entries[i].dst == "default" && entries[i].dev == dev && dev !in {"", device}
                  && forall j :: 0 <= j < i && entries[j].dst == "default" ==> entries[j].dev in {"", device}
  }

  lemma PowersOfTwo()
    ensures Pow2(16) == 0x1_0000 && Pow2(28) == 0x1000_0000
    ensures Pow2(32) == 0x1_0000_0000 && Pow2(64) == 0x1_0000_0000_0000_0000
  {
    assert Pow2(4) == 16;
    hide Pow2;
    Pow2Adds(4, 4);
    Pow2Adds(8, 8);
    Pow2Adds(8, 4);
    Pow2Adds(16, 12);
    Pow2Adds(16, 16);
    Pow2Adds(32, 32);
  }

  lemma LargePowers()
    ensures Pow2(118) == 0x40_0000_0000_0000_0000_0000_0000_0000
    ensures Pow2(120) == 0x100_0000_0000_0000_0000_0000_0000_0000
  {
    PowersOfTwo();
    assert Pow2(6) == 0x40 && Pow2(8) == 0x100;
    hide Pow2;
    Pow2Adds(64, 32);
    Pow2Adds(96, 16);
    Pow2Adds(112, 6);
    Pow2Adds(112, 8);
  }

  lemma LocalIsWithin(family: Family, p: Prefix)
    ensures Within(p, family.LinkLocal(), family.Width()) || Within(p, family.Multicast(), family.Width()) <==> StaysLocal(family, p)
  {
    PowersOfTwo();
    LargePowers();
    hide Pow2;
  }

  /** The rows that count are the rows that route. */
  lemma CountsIsRoutes(family: Family, e: Entry, device: string, parse: Parser)
    ensures Counts(family, e, device, parse) <==> Routes(family, e, device, parse)
    ensures NetworkOf(family, e.dst, parse) == Block(family, e, parse)
  {
    if NetworkOf(family, e.dst, parse).Some? {
      LocalIsWithin(family, NetworkOf(family, e.dst, parse).value);
    }
    hide Within, StaysLocal;
  }

  // ---- the specification: what the rows of a table add up to ----

  function CountsOn(family: Family, device: string, parse: Parser): Entry -> bool {
    (e: Entry) => Counts(family, e, device, parse)
  }

  function CountedRows(family: Family, entries: seq<Entry>, device: string, parse: Parser): seq<Entry> {
    Tails.Filter(entries, CountsOn(family, device, parse))
  }

  /** The networks of rows that have one, in order. */
  function Networks(family: Family, rows: seq<Entry>, parse: Parser): seq<Prefix> {
    if rows == [] then []
    else
      var network := NetworkOf(family, rows[|rows| - 1].dst, parse);
      Networks(family, rows[..|rows| - 1], parse) + if network.Some? then [network.value] else []
  }

  lemma {:induction false} NetworksIn(family: Family, rows: seq<Entry>, p: Prefix, parse: Parser)
    ensures p in Networks(family, rows, parse) <==> exists e :: e in rows && NetworkOf(family, e.dst, parse) == Some(p)
  {
    if rows == [] {
    } else {
      var init, last := rows[..|rows| - 1], rows[|rows| - 1];
      assert rows == init + [last];
      NetworksIn(family, init, p, parse);
    }
  }

  function Counted(family: Family, entries: seq<Entry>, device: string, parse: Parser): seq<Prefix> {
    Networks(family, CountedRows(family, entries, device, parse), parse)
  }

  function Destinations(rows: seq<Entry>): set<string> {
    set e | e in rows :: e.dst
  }

  function Public(nets: seq<Prefix>, isPublic: Prefix -> bool): seq<Prefix> {
    Tails.Filter(nets, isPublic)
  }

  /** The first other device holding a default route: where the family leaves when the tunnel does not carry it. */
  function Egress(entries: seq<Entry>, device: string): Option<string> {
    if entries == [] then None
    else
      var earlier := Egress(entries[..|entries| - 1], device);
      var e := entries[|entries| - 1];
      if earlier.None? && e.dst == "default" && e.dev != "" && e.dev != device then Some(e.dev) else earlier
  }

  ghost function Share(family: Family, nets: seq<Prefix>): Double {
    if nets == [] then Double(0, 0)
    else Quotient(|AddressSet(Elements(nets), family.Width())|, Pow2(family.Width()))
  }

  ghost function Verdict(family: Family, nets: seq<Prefix>): Mode {
    if nets == [] then NONE else if AtLeastOne(Share(family, nets)) then FULL else SPLIT
  }

  // ---- the code ----

  /** The number of blocks of the collapsed list, of which there is only one. */
  ghost predicate CollapsesTo(nets: seq<Prefix>, n: nat, width: nat) {
    exists blocks :: Canonical(blocks, width) && SameAddresses(Elements(blocks), Elements(nets), width) && |blocks| == n
  }

  /** `coverage`. */
  method Coverage(family: Family, nets: seq<Prefix>) returns (share: Double, blocks: seq<Prefix>)
    requires AllValid(nets, family.Width())
    ensures share == Share(family, nets)
    ensures Canonical(blocks, family.Width())
    ensures SameAddresses(Elements(blocks), Elements(nets), family.Width()) && CollapsesTo(nets, |blocks|, family.Width())
  {
    var total;
    total, blocks := CoveredCount(nets, family.Width());
    if nets == [] {
      return Double(0, 0), blocks;
    }
    share := Quotient(total, Pow2(family.Width()));
  }

  lemma CountedIn(family: Family, entries: seq<Entry>, p: Prefix, device: string, parse: Parser)
    ensures p in Counted(family, entries, device, parse) <==>
            exists e :: e in entries && Counts(family, e, device, parse) && NetworkOf(family, e.dst, parse) == Some(p)
  {
    var rows := CountedRows(family, entries, device, parse);
    assert forall e :: e in rows <==> e in entries && Counts(family, e, device, parse);
    hide CountedRows, Networks, Counts;
    NetworksIn(family, rows, p, parse);
  }

  /** The counted networks are the blocks of the rows that route. */
  lemma RoutedIn(family: Family, entries: seq<Entry>, p: Prefix, device: string, parse: Parser)
    ensures p in Counted(family, entries, device, parse) <==>
            exists e :: e in entries && Routes(family, e, device, parse) && Block(family, e, parse) == Some(p)
  {
    CountedIn(family, entries, p, device, parse);
    forall e: Entry
      ensures Counts(family, e, device, parse) <==> Routes(family, e, device, parse)
      ensures NetworkOf(family, e.dst, parse) == Block(family, e, parse)
    {
      CountsIsRoutes(family, e, device, parse);
    }
    hide Counts, Routes, Counted, Block, NetworkOf;
  }

  // ---- the two agree ----

  lemma CountedSnoc(family: Family, entries: seq<Entry>, e: Entry, device: string, parse: Parser)
    ensures Counted(family, entries + [e], device, parse) ==
            Counted(family, entries, device, parse)
            + if Routes(family, e, device, parse) then [Block(family, e, parse).value] else []
  {
    assert (entries + [e])[..|entries|] == entries;
    CountsIsRoutes(family, e, device, parse);
    if Routes(family, e, device, parse) {
      OneMoreNetwork(family, CountedRows(family, entries, device, parse), e, parse);
    }
    hide Counts, Routes, Networks, Block, NetworkOf;
  }

  lemma RoutingSnoc(family: Family, entries: seq<Entry>, e: Entry, device: string, parse: Parser, only: Prefix -> bool)
    ensures Routing(family, entries + [e], device, parse, only) ==
            Routing(family, entries, device, parse, only) + if RoutesSome(family, e, device, parse, only) then {|entries|} else {}
    ensures |entries| !in Routing(family, entries, device, parse, only)
  {
    var all := entries + [e];
    assert all[|entries|] == e && forall i :: 0 <= i < |entries| ==> all[i] == entries[i];
    hide RoutesSome;
  }

  /** As many networks are counted as rows route. */
  lemma {:induction false} CountedNumber(family: Family, entries: seq<Entry>, device: string, parse: Parser, only: Prefix -> bool)
    ensures |Public(Counted(family, entries, device, parse), only)| == |Routing(family, entries, device, parse, only)|
  {
    if entries == [] {
      assert Routing(family, [], device, parse, only) == {};
    } else {
      var init, last := entries[..|entries| - 1], entries[|entries| - 1];
      assert entries == init + [last];
      CountedNumber(family, init, device, parse, only);
      CountedSnoc(family, init, last, device, parse);
      RoutingSnoc(family, init, last, device, parse, only);
      var nets := Counted(family, init, device, parse);
      hide Counted, Routing, Public, Routes;
      if Routes(family, last, device, parse) {
        OneMorePublic(nets, Block(family, last, parse).value, only);
      } else {
        assert nets + [] == nets;
      }
    }
  }

  /** And they cover the addresses those rows reach. */
  lemma CountedReaches(family: Family, entries: seq<Entry>, device: string, parse: Parser, only: Prefix -> bool)
    ensures AddressSet(Elements(Public(Counted(family, entries, device, parse), only)), family.Width()) ==
            Reached(family, entries, device, parse, only)
  {
    var nets, width := Counted(family, entries, device, parse), family.Width();
    forall p
      ensures p in Public(nets, only) <==>
              exists e :: e in entries && RoutesSome(family, e, device, parse, only) && Block(family, e, parse) == Some(p)
    {
      RoutedIn(family, entries, p, device, parse);
      hide Counted, Routes;
    }
    hide Counted, Public, RoutesSome, Block;
    forall a: nat
      ensures Covers(Elements(Public(nets, only)), a, width) <==> Reaches(family, entries, a, device, parse, only)
    {
      CoversReaches(family, entries, Public(nets, only), a, device, parse, only);
    }
    hide Covers, Reaches, Elements;
  }

  lemma CoversReaches(family: Family, entries: seq<Entry>, nets: seq<Prefix>, a: nat, device: string, parse: Parser, only: Prefix -> bool)
    requires forall p :: p in nets <==>
               exists e :: e in entries && RoutesSome(family, e, device, parse, only) && Block(family, e, parse) == Some(p)
    ensures Covers(Elements(nets), a, family.Width()) <==> Reaches(family, entries, a, device, parse, only)
  {
    hide Contains, Block;
    if Reaches(family, entries, a, device, parse, only) {
      var e :| e in entries && RoutesSome(family, e, device, parse, only) && Contains(Block(family, e, parse).value, a, family.Width());
      assert Block(family, e, parse).value in nets;
    }
  }

  /** What a table comes to is what its counted networks come to. */
  lemma CountedAnswers(family: Family, entries: seq<Entry>, device: string, parse: Parser, only: Prefix -> bool)
    ensures var nets := Public(Counted(family, entries, device, parse), only);
            AnswerOf(family, entries, device, parse, only) == Answer(Verdict(family, nets), Share(family, nets), |nets|)
  {
    CountedNumber(family, entries, device, parse, only);
    CountedReaches(family, entries, device, parse, only);
    hide Counted, Public, Routing, Reached, AddressSet;
  }

  /** Which destinations are among the counted ones. */
  lemma CountedDestination(family: Family, entries: seq<Entry>, dst: string, device: string, parse: Parser)
    ensures dst in Destinations(CountedRows(family, entries, device, parse)) <==>
            Sends(family, entries, dst, device, parse)
  {
    forall e
      ensures Counts(family, e, device, parse) <==> Routes(family, e, device, parse)
    {
      CountsIsRoutes(family, e, device, parse);
    }
    hide Counts, Routes;
  }

  lemma {:induction false} EgressLeaves(entries: seq<Entry>, device: string)
    ensures LeavesBy(entries, device, Egress(entries, device))
  {
    if entries == [] {
    } else {
      EgressLeaves(entries[..|entries| - 1], device);
    }
  }

  lemma CountedAreValid(family: Family, entries: seq<Entry>, device: string, parse: Parser)
    requires Reads(parse, family)
    ensures AllValid(Counted(family, entries, device, parse), family.Width())
  {
    var rows := CountedRows(family, entries, device, parse);
    hide CountedRows, Networks;
    forall p | p in Networks(family, rows, parse)
      ensures Valid(p, family.Width())
    {
      NetworksIn(family, rows, p, parse);
    }
  }

  lemma OneMoreRow(family: Family, entries: seq<Entry>, i: nat, device: string, parse: Parser)
    requires i < |entries|
    ensures CountedRows(family, entries[..i + 1], device, parse) ==
            if Counts(family, entries[i], device, parse) then CountedRows(family, entries[..i], device, parse) + [entries[i]]
            else CountedRows(family, entries[..i], device, parse)
  {
    assert entries[..i + 1][..i] == entries[..i];
  }

  lemma OneMoreNetwork(family: Family, rows: seq<Entry>, e: Entry, parse: Parser)
    requires NetworkOf(family, e.dst, parse).Some?
    ensures Networks(family, rows + [e], parse) == Networks(family, rows, parse) + [NetworkOf(family, e.dst, parse).value]
    ensures Destinations(rows + [e]) == Destinations(rows) + {e.dst}
  {
    assert (rows + [e])[..|rows|] == rows;
    forall d | d in Destinations(rows) + {e.dst}
      ensures d in Destinations(rows + [e])
    {
      if d == e.dst {
        assert e in rows + [e];
      } else {
        var r :| r in rows && r.dst == d;
        assert r in rows + [e];
      }
    }
  }

  lemma OneMorePublic(nets: seq<Prefix>, p: Prefix, isPublic: Prefix -> bool)
    ensures Public(nets + [p], isPublic) == Public(nets, isPublic) + if isPublic(p) then [p] else []
  {
    assert (nets + [p])[..|nets|] == nets;
  }

  /** What the loop of `evaluate` has gathered from the rows read so far. */
  datatype Tally = Tally(
    nets: seq<Prefix>,
    publicNets: seq<Prefix>,
    destinations: set<string>,
    prefixes: nat,
    defaultViaTunnel: bool,
    egress: Option<string>)

  /** What they add up to. */
  function TallyOf(family: Family, entries: seq<Entry>, device: string, parse: Parser, isPublic: Prefix -> bool): Tally {
    var rows := CountedRows(family, entries, device, parse);
    var nets := Networks(family, rows, parse);
    Tally(nets, Public(nets, isPublic), Destinations(rows), |nets|, "default" in Destinations(rows), Egress(entries, device))
  }

  /** What one row more adds. */
  lemma TallySnoc(family: Family, entries: seq<Entry>, i: nat, device: string, parse: Parser, isPublic: Prefix -> bool)
    requires i < |entries|
    ensures var (t, e) := (TallyOf(family, entries[..i], device, parse, isPublic), entries[i]);
            var other := e.dst == "default" && e.dev != "" && e.dev != device;
            var left := t.(egress := if t.egress.None? && other then Some(e.dev) else t.egress);
            TallyOf(family, entries[..i + 1], device, parse, isPublic) ==
            if !Counts(family, e, device, parse) then left
            else
              var network := NetworkOf(family, e.dst, parse).value;
              left.(prefixes := t.prefixes + 1,
                    destinations := t.destinations + {e.dst},
                    nets := t.nets + [network],
                    publicNets := if isPublic(network) then t.publicNets + [network] else t.publicNets,
                    defaultViaTunnel := t.defaultViaTunnel || e.dst == "default")
  {
    var e, rows := entries[i], CountedRows(family, entries[..i], device, parse);
    assert entries[..i + 1][..i] == entries[..i];
    OneMoreRow(family, entries, i, device, parse);
    hide CountedRows, Networks, Public, Destinations;
    if Counts(family, e, device, parse) {
      OneMoreNetwork(family, rows, e, parse);
      OneMorePublic(Networks(family, rows, parse), NetworkOf(family, e.dst, parse).value, isPublic);
    }
    hide Counts, NetworkOf;
  }

  method TallyRow(t: Tally, family: Family, entries: seq<Entry>, i: nat, device: string, parse: Parser, isPublic: Prefix -> bool)
    returns (t': Tally)
    requires i < |entries|
    requires t == TallyOf(family, entries[..i], device, parse, isPublic)
    ensures t' == TallyOf(family, entries[..i + 1], device, parse, isPublic)
    ensures Routes(family, entries[i], device, parse) ==>
            var block := Block(family, entries[i], parse).value;
            t'.nets == t.nets + [block] && t'.prefixes == t.prefixes + 1 && t'.destinations == t.destinations + {entries[i].dst}
    ensures !Routes(family, entries[i], device, parse) ==> t'.(egress := t.egress) == t
  {
    var e := entries[i];
    CountsIsRoutes(family, e, device, parse);
    TallySnoc(family, entries, i, device, parse, isPublic);
    hide TallyOf, Within, Routes, Block;
    t' := t;
    if e.dst == "" || e.dev == "" {
      return;
    }
    var isDefault := e.dst == "default";
    if isDefault && e.dev != device {
      t' := t'.(egress := if t.egress.Some? then t.egress else Some(e.dev));
    }
    if e.dev != device {
      return;
    }
    var network := NetworkOf(family, e.dst, parse);
    if network.None? {
      return;
    }
    if Within(network.value, family.LinkLocal(), family.Width())
       || Within(network.value, family.Multicast(), family.Width()) {
      return;
    }
    t' := t'.(
      prefixes := t.prefixes + 1,
      destinations := t.destinations + {e.dst},
      nets := t.nets + [network.value],
      publicNets := if isPublic(network.value) then t.publicNets + [network.value] else t.publicNets,
      defaultViaTunnel := t.defaultViaTunnel || isDefault);
  }

  lemma PublicAreValid(nets: seq<Prefix>, isPublic: Prefix -> bool, width: nat)
    requires AllValid(nets, width)
    ensures AllValid(Public(nets, isPublic), width)
  {
    hide Valid;
  }

  lemma NothingTallied(family: Family, device: string, parse: Parser, isPublic: Prefix -> bool)
    ensures TallyOf(family, [], device, parse, isPublic) == Tally([], [], {}, 0, false, None)
  {
  }

  /** What has been gathered from all the rows, said of the rows themselves. */
  ghost predicate Means(t: Tally, family: Family, entries: seq<Entry>, device: string, parse: Parser, isPublic: Prefix -> bool) {
    && t.nets == Counted(family, entries, device, parse) && t.publicNets == Public(t.nets, isPublic)
    && AnswerOf(family, entries, device, parse, Any()) == Answer(Verdict(family, t.nets), Share(family, t.nets), t.prefixes)
    && AnswerOf(family, entries, device, parse, isPublic) ==
         Answer(Verdict(family, t.publicNets), Share(family, t.publicNets), |t.publicNets|)
    && t.defaultViaTunnel == Sends(family, entries, "default", device, parse)
    && ({family.LowHalf(), family.HighHalf()} <= t.destinations <==> SendsHalves(family, entries, device, parse))
    && LeavesBy(entries, device, t.egress)
    && (t.nets == [] ==> t.prefixes == 0 && t.destinations == {} && t.publicNets == [])
  }

  lemma HalvesCounted(family: Family, entries: seq<Entry>, device: string, parse: Parser)
    ensures var d := Destinations(CountedRows(family, entries, device, parse));
            {family.LowHalf(), family.HighHalf()} <= d <==> SendsHalves(family, entries, device, parse)
  {
    CountedDestination(family, entries, family.LowHalf(), device, parse);
    CountedDestination(family, entries, family.HighHalf(), device, parse);
    hide Destinations, CountedRows, Sends;
  }

  lemma AllAnswers(family: Family, entries: seq<Entry>, device: string, parse: Parser)
    ensures var nets := Counted(family, entries, device, parse);
            AnswerOf(family, entries, device, parse, Any()) == Answer(Verdict(family, nets), Share(family, nets), |nets|)
  {
    CountedAnswers(family, entries, device, parse, Any());
    Tails.FilterAll(Counted(family, entries, device, parse), Any());
    hide AnswerOf, Counted, Verdict, Share, Tails.Filter;
  }

  lemma WhatItMeans(family: Family, entries: seq<Entry>, device: string, parse: Parser, isPublic: Prefix -> bool)
    ensures Means(TallyOf(family, entries, device, parse, isPublic), family, entries, device, parse, isPublic)
  {
    AllAnswers(family, entries, device, parse);
    CountedAnswers(family, entries, device, parse, isPublic);
    EgressLeaves(entries, device);
    if Counted(family, entries, device, parse) == [] {
      NothingCounted(family, entries, device, parse, isPublic);
    }
    CountedDestination(family, entries, "default", device, parse);
    HalvesCounted(family, entries, device, parse);
    hide AnswerOf, Sends, SendsHalves, LeavesBy, CountedRows, Networks, Verdict, Share, Destinations, Public, Egress;
  }

  /** `evaluate`. */
  method Evaluate(family: Family, entries: seq<Entry>, device: string, parse: Parser, isPublic: Prefix -> bool)
    returns (scope: FamilyScope)
    requires Reads(parse, family)
    ensures Answer(scope.mode, scope.coverage, scope.prefixes) == AnswerOf(family, entries, device, parse, Any())
    ensures scope.publicPrefixes == AnswerOf(family, entries, device, parse, isPublic).prefixes
    ensures scope.publicCoverage == AnswerOf(family, entries, device, parse, isPublic).coverage
    ensures scope.defaultViaTunnel == Sends(family, entries, "default", device, parse)
    ensures scope.redirectPair == SendsHalves(family, entries, device, parse)
    ensures LeavesBy(entries, device, scope.egressDevice)
    ensures CollapsesTo(Counted(family, entries, device, parse), scope.blocks, family.Width())
    ensures CollapsesTo(Public(Counted(family, entries, device, parse), isPublic), scope.publicBlocks, family.Width())
  {
    var t := Tally([], [], {}, 0, false, None);
    var i := 0;
    assert entries[..0] == [];
    NothingTallied(family, device, parse, isPublic);
    EmptyCollapses(family.Width());
    hide TallyOf, Counted, CountedRows, Networks, Public, AnswerOf, Sends, LeavesBy, CollapsesTo, Canonical, SameAddresses;
    hide SendsHalves, Routes, Block, Elements, AddressSet, Quotient, AtLeastOne, Pow2, Reads, AllValid;
    while i < |entries|
      invariant 0 <= i <= |entries|
      invariant t == TallyOf(family, entries[..i], device, parse, isPublic)
    {
      t := TallyRow(t, family, entries, i, device, parse, isPublic);
      i := i + 1;
    }
    assert entries[..i] == entries;
    CountedAreValid(family, entries, device, parse);
    WhatItMeans(family, entries, device, parse, isPublic);
    PublicAreValid(t.nets, isPublic, family.Width());
    if t.nets == [] {
      return FamilyScope(NONE, Double(0, 0), 0, 0, false, false, t.egress, 0, 0, Double(0, 0));
    }
    var share, blocks := Coverage(family, t.nets);
    var publicShare, publicBlocks := Coverage(family, t.publicNets);
    scope := FamilyScope(
      if AtLeastOne(share) then FULL else SPLIT, share, t.prefixes, |blocks|, t.defaultViaTunnel,
      {family.LowHalf(), family.HighHalf()} <= t.destinations, t.egress,
      |t.publicNets|, |publicBlocks|, publicShare);
  }

  lemma EmptyCollapses(width: nat)
    ensures CollapsesTo([], 0, width)
  {
    assert Canonical([], width) && SameAddresses(Elements([]), Elements([]), width);
  }

  lemma {:induction false} NetworksLength(family: Family, rows: seq<Entry>, parse: Parser)
    requires forall e :: e in rows ==> NetworkOf(family, e.dst, parse).Some?
    ensures |Networks(family, rows, parse)| == |rows|
  {
    if rows == [] {
    } else {
      assert rows[|rows| - 1] in rows;
      NetworksLength(family, rows[..|rows| - 1], parse);
    }
  }

  /** With nothing counted there is nothing to tell of. */
  lemma NothingCounted(family: Family, entries: seq<Entry>, device: string, parse: Parser, isPublic: Prefix -> bool)
    requires Counted(family, entries, device, parse) == []
    ensures Destinations(CountedRows(family, entries, device, parse)) == {}
    ensures CollapsesTo([], 0, family.Width())
    ensures Public([], isPublic) == []
  {
    NetworksLength(family, CountedRows(family, entries, device, parse), parse);
    EmptyCollapses(family.Width());
    hide CollapsesTo, CountedRows, Networks;
  }
}
