/**
 Who may reach the panel, and whom a request is attributed to.  Reading and writing addresses as text is the
 Python library's and appears as functions; membership in a network is the model's own.
 */
module Access {
  import opened Options
  import opened Framing
  import opened Tails
  import Prefixes
  import opened Powers
  import opened DnsGrammar

  datatype Ip = Ip(v6: bool, value: nat)

  datatype Network = Network(v6: bool, prefix: Prefixes.Prefix)

  /** `ip_address`, `ip_network(strict=False)` and `str` of an address. */
  datatype Library = Library(ip: string -> Option<Ip>, network: string -> Option<Network>, show: Ip -> string)

  const MAX_FORWARDED_HOPS := 20

  function Width(v6: bool): nat { if v6 then 128 else 32 }

  /** ::ffff:a.b.c.d stands for the IPv4 address. */
  function Unmapped(ip: Ip): Ip {
    if ip.v6 && ip.value / Pow2(32) == 0xffff then Ip(false, ip.value % Pow2(32)) else ip
  }

  function ParseIp(lib: Library, text: Option<string>): Option<Ip> {
    if text.None? || text.value == "" then None
    else
      var ip := lib.ip(Strip(text.value));
      if ip.None? then None else Some(Unmapped(ip.value))
  }

  predicate Member(ip: Ip, network: Network) {
    ip.v6 == network.v6 && Prefixes.Contains(network.prefix, ip.value, Width(ip.v6))
  }

  predicate IsAllowed(lib: Library, remote: Option<string>, networks: seq<Network>) {
    var ip := ParseIp(lib, remote);
    ip.Some? && exists i :: 0 <= i < |networks| && Member(ip.value, networks[i])
  }

  /** An address inside a range of its own family; ::ffff:0:0 to ::ffff:ffff:ffff are IPv4 addresses. */
  predicate Lies(ip: Ip, v6: bool, low: nat, high: nat) {
    if ip.v6 && 0xFFFF_0000_0000 <= ip.value <= 0xFFFF_FFFF_FFFF then !v6 && low <= ip.value - 0xFFFF_0000_0000 <= high
    else ip.v6 == v6 && low <= ip.value <= high
  }

  lemma TwoTo32()
    ensures Pow2(32) == 0x1_0000_0000 && Pow2(24) == 0x100_0000
  {
    assert Pow2(8) == 256;
    hide Pow2;
    Pow2Adds(8, 8);
    Pow2Adds(8, 16);
    Pow2Adds(16, 16);
  }

  lemma MappedRange(x: nat)
    ensures x / 0x1_0000_0000 == 0xFFFF <==> 0xFFFF_0000_0000 <= x <= 0xFFFF_FFFF_FFFF
    ensures x / 0x1_0000_0000 == 0xFFFF ==> x % 0x1_0000_0000 == x - 0xFFFF_0000_0000
  {
  }

  lemma UnmappedLies(ip: Ip, v6: bool, low: nat, high: nat)
    ensures Lies(ip, v6, low, high) <==> Unmapped(ip).v6 == v6 && low <= Unmapped(ip).value <= high
  {
    TwoTo32();
    hide Pow2;
    MappedRange(ip.value);
  }

  /** A client is allowed if and only if its text is an address that lies in one of the networks. */
  lemma AllowedExactly(lib: Library, remote: Option<string>, networks: seq<Network>)
    requires forall i :: 0 <= i < |networks| ==> networks[i].prefix.length <= Width(networks[i].v6)
    ensures IsAllowed(lib, remote, networks) <==>
            && remote.Some? && remote.value != "" && lib.ip(Strip(remote.value)).Some?
            && exists i :: 0 <= i < |networks| &&
                 Lies(lib.ip(Strip(remote.value)).value, networks[i].v6,
                      Prefixes.First(networks[i].prefix, Width(networks[i].v6)),
                      Prefixes.Last(networks[i].prefix, Width(networks[i].v6)))
  {
    hide Strip, Lies, Unmapped, Prefixes.First, Prefixes.Last;
    if remote.Some? && remote.value != "" && lib.ip(Strip(remote.value)).Some? {
      var ip := lib.ip(Strip(remote.value)).value;
      forall i | 0 <= i < |networks|
        ensures Member(Unmapped(ip), networks[i]) <==>
                Lies(ip, networks[i].v6, Prefixes.First(networks[i].prefix, Width(networks[i].v6)),
                     Prefixes.Last(networks[i].prefix, Width(networks[i].v6)))
      {
        UnmappedLies(ip, networks[i].v6, Prefixes.First(networks[i].prefix, Width(networks[i].v6)),
                     Prefixes.Last(networks[i].prefix, Width(networks[i].v6)));
      }
    }
  }

  // ---- lists of networks ----

  datatype Parsed = Networks(networks: seq<Network>) | Malformed(entry: string)

  function Stripped(fields: seq<string>): (r: seq<string>)
    ensures |r| == |fields|
  {
    seq(|fields|, i requires 0 <= i < |fields| => Strip(fields[i]))
  }

  function Kept(fields: seq<string>): seq<string> {
    Filter(Stripped(fields), NonEmpty)
  }

  function Entries(raw: string): seq<string> {
    Kept(Fields(raw, ','))
  }

  predicate NonEmpty(s: string) { s != "" }

  ghost predicate Reads(lib: Library, entries: seq<string>, networks: seq<Network>) {
    |networks| == |entries| && forall i :: 0 <= i < |entries| ==> lib.network(entries[i]) == Some(networks[i])
  }

  lemma EntrySnoc(fields: seq<string>, n: nat)
    requires n < |fields|
    ensures Kept(fields[..n + 1]) == Kept(fields[..n]) + if Strip(fields[n]) == "" then [] else [Strip(fields[n])]
  {
    var one: seq<string> := [Strip(fields[n])];
    hide Strip, Filter;
    assert Stripped(fields[..n + 1]) == Stripped(fields[..n]) + one;
    FilterAppend(Stripped(fields[..n]), one, NonEmpty);
    FilterSingle(one[0]);
  }

  lemma ReadsSnoc(lib: Library, entries: seq<string>, networks: seq<Network>, entry: string, network: Network)
    requires Reads(lib, entries, networks) && lib.network(entry) == Some(network)
    ensures Reads(lib, entries + [entry], networks + [network])
  {
  }

  lemma FilterSingle(s: string)
    ensures Filter([s], NonEmpty) == if s == "" then [] else [s]
  {
    var one: seq<string> := [s];
    assert one[..0] == [];
  }

  lemma EntryIn(fields: seq<string>, n: nat)
    requires n < |fields| && Strip(fields[n]) != ""
    ensures Strip(fields[n]) in Kept(fields)
  {
    hide Strip;
    assert Stripped(fields)[n] == Strip(fields[n]);
  }

  /** Every entry is read, in order, or the whole list is refused. */
  method ParseNetworks(lib: Library, raw: Option<string>) returns (parsed: Parsed)
    ensures parsed.Networks? ==> Reads(lib, Entries(raw.GetOr("")), parsed.networks)
    ensures parsed.Malformed? ==> parsed.entry in Entries(raw.GetOr("")) && lib.network(parsed.entry) == None
  {
    assert Strip("") == "";
    hide Strip, Fields, Kept, Reads;
    if raw.None? || Strip(raw.value) == "" {
      NoEntries(raw.GetOr(""));
      return Networks([]);
    }
    var tokens := Fields(raw.value, ',');
    var networks: seq<Network> := [];
    FilterNothing();
    for n := 0 to |tokens|
      invariant Reads(lib, Filter(Stripped(tokens[..n]), NonEmpty), networks)
    {
      EntrySnoc(tokens, n);
      var entry := Strip(tokens[n]);
      if entry == "" {
        continue;
      }
      var network := lib.network(entry);
      if network.None? {
        EntryIn(tokens, n);
        return Malformed(entry);
      }
      ReadsSnoc(lib, Kept(tokens[..n]), networks, entry, network.value);
      networks := networks + [network.value];
    }
    assert tokens[..|tokens|] == tokens;
    return Networks(networks);
  }

  lemma FilterNothing()
    ensures Kept([]) == []
  {
  }

  lemma {:induction false} BlankAll(s: string)
    requires Strip(s) == ""
    ensures forall k :: 0 <= k < |s| ==> IsBlank(s[k])
  {
    StripLeftBlank(s);
  }

  lemma {:induction false} StripRightBlank(s: string)
    requires StripRight(s) == ""
    ensures forall k :: 0 <= k < |s| ==> IsBlank(s[k])
  {
    if s != "" {
      StripRightBlank(s[..|s| - 1]);
      assert forall k :: 0 <= k < |s| - 1 ==> s[k] == s[..|s| - 1][k];
    }
  }

  lemma {:induction false} StripLeftBlank(s: string)
    requires StripRight(StripLeft(s)) == ""
    ensures forall k :: 0 <= k < |s| ==> IsBlank(s[k])
  {
    if s != "" && IsBlank(s[0]) {
      StripLeftBlank(s[1..]);
      assert forall k :: 1 <= k < |s| ==> s[k] == s[1..][k - 1];
    } else {
      StripRightBlank(s);
    }
  }

  /** A blank list has no entries, as it has no comma. */
  lemma NoEntries(s: string)
    requires Strip(s) == ""
    ensures Entries(s) == []
  {
    BlankAll(s);
    assert forall k :: 0 <= k < |s| ==> IsBlank(s[k]) && s[k] != ',';
    CutIsUnique([], s, ',');
    assert Joined([], ',') + s == s;
    assert Fields(s, ',') == [s];
    var one: seq<string> := [s];
    assert Stripped(one) == [""];
    FilterSingle("");
    hide CutLines, Strip, Filter;
  }

  const LOOPBACK_ONLY := [Network(false, Prefixes.Prefix(127, 8)), Network(true, Prefixes.Prefix(1, 128))]

  method ParseAllowFrom(lib: Library, raw: Option<string>) returns (parsed: Parsed)
    ensures parsed.Networks? ==> parsed.networks != []
    ensures parsed.Networks? && Entries(raw.GetOr("")) == [] ==> parsed.networks == LOOPBACK_ONLY
    ensures parsed.Networks? && Entries(raw.GetOr("")) != [] ==> Reads(lib, Entries(raw.GetOr("")), parsed.networks)
  {
    parsed := ParseNetworks(lib, raw);
    if parsed == Networks([]) {
      return Networks(LOOPBACK_ONLY);
    }
  }

  lemma LoopbackRanges()
    ensures Prefixes.First(Prefixes.Prefix(127, 8), 32) == 0x7F00_0000 && Prefixes.Last(Prefixes.Prefix(127, 8), 32) == 0x7FFF_FFFF
    ensures Prefixes.First(Prefixes.Prefix(1, 128), 128) == 1 == Prefixes.Last(Prefixes.Prefix(1, 128), 128)
  {
    TwoTo32();
    assert Pow2(0) == 1;
    hide Pow2;
  }

  /** With nothing configured exactly 127.0.0.0 to 127.255.255.255 and ::1 are let in. */
  lemma LoopbackExactly(lib: Library, remote: Option<string>)
    ensures IsAllowed(lib, remote, LOOPBACK_ONLY) <==>
            && remote.Some? && remote.value != "" && lib.ip(Strip(remote.value)).Some?
            && (Lies(lib.ip(Strip(remote.value)).value, false, 0x7F00_0000, 0x7FFF_FFFF)
                || Lies(lib.ip(Strip(remote.value)).value, true, 1, 1))
  {
    LoopbackRanges();
    AllowedExactly(lib, remote, LOOPBACK_ONLY);
    hide Strip, Lies, Pow2, IsAllowed, Prefixes.First, Prefixes.Last;
    assert LOOPBACK_ONLY[0] == Network(false, Prefixes.Prefix(127, 8)) && LOOPBACK_ONLY[1] == Network(true, Prefixes.Prefix(1, 128));
  }

  // ---- attribution ----

  datatype Seen = Nobody | Garbage | Client(ip: Ip)

  /** From the right: past empty hops and proxies of our own, to the first that is neither. */
  function Walk(lib: Library, hops: seq<string>, proxies: seq<Network>): Seen {
    if hops == [] then Nobody
    else
      var hop := hops[|hops| - 1];
      if hop == "" || IsAllowed(lib, Some(hop), proxies) then Walk(lib, hops[..|hops| - 1], proxies)
      else
        var ip := ParseIp(lib, Some(hop));
        if ip.None? then Garbage else Client(ip.value)
  }

  function Hops(forwarded: Option<string>): seq<string> {
    Last(Stripped(Fields(forwarded.GetOr(""), ',')), MAX_FORWARDED_HOPS)
  }

  function Peer(remote: Option<string>): string {
    if remote.None? || remote.value == "" then "unknown" else remote.value
  }

  method ClientAddress(lib: Library, remote: Option<string>, forwarded: Option<string>, proxies: seq<Network>) returns (client: string)
    ensures client ==
            if proxies == [] || !IsAllowed(lib, remote, proxies) then Peer(remote)
            else match Walk(lib, Hops(forwarded), proxies) { case Client(ip) => lib.show(ip) case _ => Peer(remote) }
  {
    hide IsAllowed, ParseIp, Fields, Stripped;
    if proxies == [] || !IsAllowed(lib, remote, proxies) {
      return Peer(remote);
    }
    var hops := Hops(forwarded);
    var n := |hops|;
    assert hops[..n] == hops;
    while n > 0
      invariant 0 <= n <= |hops|
      invariant Walk(lib, hops, proxies) == Walk(lib, hops[..n], proxies)
    {
      var hop := hops[n - 1];
      assert hops[..n][..n - 1] == hops[..n - 1];
      n := n - 1;
      if hop == "" {
        continue;
      }
      if IsAllowed(lib, Some(hop), proxies) {
        continue;
      }
      var parsed := ParseIp(lib, Some(hop));
      if parsed.None? {
        return Peer(remote);
      }
      return lib.show(parsed.value);
    }
    return Peer(remote);
  }

  /** A hop the walk stops at. */
  predicate Stops(lib: Library, hop: string, proxies: seq<Network>) {
    hop != "" && !IsAllowed(lib, Some(hop), proxies)
  }

  /**
   Whoever is named is an address that no proxy of our own has, with nothing but such proxies and empty hops to
   the right of it: never one from left of a hop that is not an address.
   */
  lemma {:induction false} NamedIsRightmost(lib: Library, hops: seq<string>, proxies: seq<Network>) returns (k: nat)
    requires Walk(lib, hops, proxies) != Nobody
    ensures k < |hops| && Stops(lib, hops[k], proxies)
    ensures forall j :: k < j < |hops| ==> !Stops(lib, hops[j], proxies)
    ensures Walk(lib, hops, proxies) ==
            var ip := ParseIp(lib, Some(hops[k])); if ip.None? then Garbage else Client(ip.value)
  {
    hide IsAllowed, ParseIp;
    k := |hops| - 1;
    if !Stops(lib, hops[k], proxies) {
      k := NamedIsRightmost(lib, hops[..|hops| - 1], proxies);
    }
  }

  lemma {:induction false} WalkAppend(lib: Library, a: seq<string>, b: seq<string>, proxies: seq<Network>)
    ensures Walk(lib, a + b, proxies) ==
            if Walk(lib, b, proxies) == Nobody then Walk(lib, a, proxies) else Walk(lib, b, proxies)
  {
    hide IsAllowed, ParseIp;
    if b == [] {
      assert a + b == a;
    } else {
      assert (a + b)[..|a + b| - 1] == a + b[..|b| - 1];
      WalkAppend(lib, a, b[..|b| - 1], proxies);
    }
  }

  lemma JoinedAround(left: seq<string>, middle: string, right: seq<string>, sep: char)
    ensures Joined(left + [middle] + right, sep) == Joined(left, sep) + (middle + [sep]) + Joined(right, sep)
  {
    JoinedAppend(left + [middle], right, sep);
    JoinedAppend(left, [middle], sep);
    assert [middle][1..] == [];
    assert Joined([middle], sep) == middle + [sep] + [];
  }

  lemma FieldsJoin(a: string, b: string, sep: char)
    ensures Fields(a + [sep] + b, sep) == Fields(a, sep) + Fields(b, sep)
  {
    var (left, right) := (CutLines(a, sep), CutLines(b, sep));
    CutKeepsAll(a, sep);
    CutKeepsAll(b, sep);
    hide CutLines, Joined;
    var lines := left.lines + [left.rest] + right.lines;
    JoinedAround(left.lines, left.rest, right.lines, sep);
    assert AllFree(lines, sep);
    Regroup(Joined(left.lines, sep), left.rest, [sep], Joined(right.lines, sep), right.rest);
    hide Free, AllFree;
    CutIsUnique(lines, right.rest, sep);
    assert lines + [right.rest] == (left.lines + [left.rest]) + (right.lines + [right.rest]);
  }

  lemma Regroup(a: string, b: string, c: string, d: string, e: string)
    ensures (a + b) + c + (d + e) == (a + (b + c)) + d + e
  {
  }

  lemma StrippedAppend(a: seq<string>, b: seq<string>)
    ensures Stripped(a + b) == Stripped(a) + Stripped(b)
  {
    hide Strip;
  }

  /** The last hops of a longer chain are those of the chain, with some of the addition before them if there is room. */
  lemma LastAppend(a: seq<string>, b: seq<string>, n: nat)
    ensures Last(a + b, n) == (if |b| >= n then [] else Last(a, n - |b|)) + Last(b, n)
  {
  }

  /**
   What a client puts in front of the chain is never believed: if the last 20 hops name anyone, or hold garbage, or
   there are 20 of them, any text and a comma before the header leave the answer as it is.
   */
  lemma PrefixIsIgnored(lib: Library, text: string, forwarded: string, proxies: seq<Network>)
    requires Walk(lib, Hops(Some(forwarded)), proxies) != Nobody || |Hops(Some(forwarded))| == MAX_FORWARDED_HOPS
    ensures Walk(lib, Hops(Some(text + "," + forwarded)), proxies) == Walk(lib, Hops(Some(forwarded)), proxies)
  {
    var (a, b) := (Fields(text, ','), Fields(forwarded, ','));
    FieldsJoin(text, forwarded, ',');
    assert text + [','] + forwarded == text + "," + forwarded;
    StrippedAppend(a, b);
    var (x, y) := (Stripped(a), Stripped(b));
    LastAppend(x, y, MAX_FORWARDED_HOPS);
    hide Fields, Stripped, Walk;
    var more := if |y| >= MAX_FORWARDED_HOPS then [] else Last(x, MAX_FORWARDED_HOPS - |y|);
    assert Hops(Some(text + "," + forwarded)) == more + Hops(Some(forwarded));
    WalkAppend(lib, more, Hops(Some(forwarded)), proxies);
    if more == [] {
      assert more + Hops(Some(forwarded)) == Hops(Some(forwarded));
    }
  }

  lemma OneField(text: string, sep: char)
    requires Free(text, sep)
    ensures Fields(text, sep) == [text]
  {
    CutIsUnique([], text, sep);
    assert Joined([], sep) + text == text;
  }

  /** And only then: where fewer than 20 hops name nobody, a client's own address in front is taken. */
  lemma PrefixIsTakenOtherwise(lib: Library, text: string, forwarded: string, proxies: seq<Network>)
    requires Walk(lib, Hops(Some(forwarded)), proxies) == Nobody && |Hops(Some(forwarded))| < MAX_FORWARDED_HOPS
    requires Free(text, ',') && Stops(lib, Strip(text), proxies) && ParseIp(lib, Some(Strip(text))).Some?
    ensures Walk(lib, Hops(Some(text + "," + forwarded)), proxies) == Client(ParseIp(lib, Some(Strip(text))).value)
  {
    var (a, b) := (Fields(text, ','), Fields(forwarded, ','));
    FieldsJoin(text, forwarded, ',');
    assert text + [','] + forwarded == text + "," + forwarded;
    OneField(text, ',');
    StrippedAppend(a, b);
    var y := Stripped(b);
    var more: seq<string> := [Strip(text)];
    assert Stripped(a) == more;
    LastAppend(more, y, MAX_FORWARDED_HOPS);
    assert more[..0] == [];
    hide Fields, Stripped, IsAllowed, ParseIp;
    assert Hops(Some(text + "," + forwarded)) == more + Hops(Some(forwarded));
    WalkAppend(lib, more, Hops(Some(forwarded)), proxies);
  }
}
