/** What a domain and an address may be, as the application checks them. */
module DnsGrammar {
  import opened Characters
  import opened Framing
  import opened Options

  const MAX_DOMAIN_LENGTH := 253

  predicate IsHex(c: char) { IsDigit(c) || 'a' <= c <= 'f' || 'A' <= c <= 'F' }

  predicate IsUpper(c: char) { 'A' <= c <= 'Z' }

  predicate IsLabelChar(c: char) { IsDigit(c) || 'a' <= c <= 'z' || IsUpper(c) || c == '-' }

  /** ASCII white space, as `strip` removes it. */
  predicate IsBlank(c: char) { '\t' <= c <= '\r' || '\U{1c}' <= c <= ' ' }

  predicate AddressChar(c: char) { IsHex(c) || c == ':' || c == '.' }

  ghost predicate All(s: string, p: char -> bool) {
    forall k :: 0 <= k < |s| ==> p(s[k])
  }

  // ---- trimming ----

  function StripLeft(s: string): (r: string) {
    if s != "" && IsBlank(s[0]) then StripLeft(s[1..]) else s
  }

  function StripRight(s: string): (r: string) {
    if s != "" && IsBlank(s[|s| - 1]) then StripRight(s[..|s| - 1]) else s
  }

  function Strip(s: string): string {
    StripRight(StripLeft(s))
  }

  function StripDots(s: string): (r: string) {
    if s != "" && s[|s| - 1] == '.' then StripDots(s[..|s| - 1]) else s
  }

  function Lower(s: string): (r: string)
    ensures |r| == |s|
  {
    if s == "" then ""
    else [if IsUpper(s[0]) then (s[0] as int + 32) as char else s[0]] + Lower(s[1..])
  }

  lemma {:induction false} LowerAt(s: string, k: nat)
    requires k < |s|
    ensures Lower(s)[k] == if IsUpper(s[k]) then (s[k] as int + 32) as char else s[k]
  {
    if k > 0 {
      LowerAt(s[1..], k - 1);
    }
  }

  lemma {:induction false} LowerOfLower(s: string)
    ensures Lower(Lower(s)) == Lower(s)
  {
    if s == "" {
    } else {
      var head := [if IsUpper(s[0]) then (s[0] as int + 32) as char else s[0]];
      assert Lower(s)[1..] == Lower(s[1..]);
      LowerOfLower(s[1..]);
    }
  }

  // ---- fields ----

  /** Python's `split` on one character. */
  function Fields(s: string, sep: char): (r: seq<string>)
    ensures |r| >= 1
  {
    var cut := CutLines(s, sep);
    cut.lines + [cut.rest]
  }

  // ---- domains ----

  predicate IsLabel(s: string) {
    && 1 <= |s| <= 63 && s[0] != '-' && s[|s| - 1] != '-'
    && forall k :: 0 <= k < |s| ==> IsLabelChar(s[k])
  }

  predicate IsDomain(s: string) {
    var labels := Fields(s, '.');
    forall i :: 0 <= i < |labels| ==> IsLabel(labels[i])
  }

  function ValidateDomain(value: string): Option<string> {
    var domain := Lower(StripDots(Strip(value)));
    if domain == "" || |domain| > MAX_DOMAIN_LENGTH || !IsDomain(domain) then None else Some(domain)
  }

  // ---- addresses ----

  function Number(s: string): int {
    if s == "" then 0 else 10 * Number(s[..|s| - 1]) + (s[|s| - 1] as int - '0' as int)
  }

  predicate IsOctet(s: string) {
    && 1 <= |s| <= 3 && (forall k :: 0 <= k < |s| ==> IsDigit(s[k]))
    && (s[0] == '0' ==> |s| == 1) && Number(s) <= 255
  }

  predicate IsIpv4(s: string) {
    var octets := Fields(s, '.');
    |octets| == 4 && forall i :: 0 <= i < 4 ==> IsOctet(octets[i])
  }

  predicate IsHextet(s: string) {
    1 <= |s| <= 4 && forall k :: 0 <= k < |s| ==> IsHex(s[k])
  }

  predicate AllHextets(parts: seq<string>) {
    forall i :: 0 <= i < |parts| ==> IsHextet(parts[i])
  }

  /** The first empty field from `k` on, not counting the last field. */
  function Gap(parts: seq<string>, k: nat): (g: nat)
    ensures g >= k
    ensures g < |parts| - 1 ==> parts[g] == ""
    decreases |parts| - k
  {
    if k >= |parts| - 1 || parts[k] == "" then k else Gap(parts, k + 1)
  }

  /** A trailing dotted quad stands for two hextets, whose values do not matter here. */
  function Widened(fields: seq<string>): seq<string>
    requires fields != []
  {
    if '.' in fields[|fields| - 1] then fields[..|fields| - 1] + ["0000", "0000"] else fields
  }

  /** The hextets on either side of `::` at `k`; an empty end may only stand right beside it. */
  predicate AroundGap(parts: seq<string>, k: nat)
    requires 0 < k < |parts| - 1
  {
    var high := if parts[0] == "" then parts[1..k] else parts[..k];
    var low := if parts[|parts| - 1] == "" then parts[k + 1..|parts| - 1] else parts[k + 1..];
    && (parts[0] == "" ==> high == []) && (parts[|parts| - 1] == "" ==> low == [])
    && |high| + |low| <= 7
    && AllHextets(high) && AllHextets(low)
  }

  predicate WellParted(parts: seq<string>)
    requires |parts| >= 3
  {
    && |parts| <= 9
    && var k := Gap(parts, 1);
       if k < |parts| - 1 then AroundGap(parts, k) else |parts| == 8 && AllHextets(parts)
  }

  predicate IsIpv6(s: string) {
    var fields := Fields(s, ':');
    && |fields| >= 3
    && ('.' in fields[|fields| - 1] ==> IsIpv4(fields[|fields| - 1]))
    && WellParted(Widened(fields))
  }

  predicate IsAddress(s: string) {
    IsIpv4(s) || IsIpv6(s)
  }

  function ValidateAddress(value: string): Option<string> {
    var address := Strip(value);
    if IsAddress(address) then Some(address) else None
  }

  // ---- what passes has only plain characters ----

  lemma {:induction false} JoinedChars(lines: seq<string>, rest: string, sep: char, p: char -> bool)
    requires forall i :: 0 <= i < |lines| ==> All(lines[i], p)
    requires All(rest, p)
    ensures forall k :: 0 <= k < |Joined(lines, sep) + rest| ==>
      p((Joined(lines, sep) + rest)[k]) || (Joined(lines, sep) + rest)[k] == sep
  {
    if lines == [] {
      assert Joined(lines, sep) + rest == rest;
    } else {
      JoinedChars(lines[1..], rest, sep, p);
      var later := Joined(lines[1..], sep) + rest;
      Associates(lines[0] + [sep], Joined(lines[1..], sep), rest);
      var s := lines[0] + [sep] + later;
      forall k | 0 <= k < |s|
        ensures p(s[k]) || s[k] == sep
      {
        if k > |lines[0]| {
          assert s[k] == later[k - |lines[0]| - 1];
        }
      }
    }
  }

  /** The characters of a text are those of its fields, and separators. */
  lemma FieldChars(s: string, sep: char, p: char -> bool)
    requires forall i :: 0 <= i < |Fields(s, sep)| ==> All(Fields(s, sep)[i], p)
    ensures forall k :: 0 <= k < |s| ==> p(s[k]) || s[k] == sep
  {
    var cut := CutLines(s, sep);
    CutKeepsAll(s, sep);
    assert Fields(s, sep)[|cut.lines|] == cut.rest;
    assert forall i :: 0 <= i < |cut.lines| ==> Fields(s, sep)[i] == cut.lines[i];
    hide CutLines, Joined;
    JoinedChars(cut.lines, cut.rest, sep, p);
  }

  function Total(parts: seq<string>): nat {
    if parts == [] then 0 else |parts[0]| + Total(parts[1..])
  }

  lemma {:induction false} TotalAppend(a: seq<string>, b: seq<string>)
    ensures Total(a + b) == Total(a) + Total(b)
  {
    if a == [] {
      assert a + b == b;
    } else {
      assert (a + b)[1..] == a[1..] + b;
      TotalAppend(a[1..], b);
    }
  }

  lemma {:induction false} JoinedLength(lines: seq<string>, sep: char)
    ensures |Joined(lines, sep)| == Total(lines) + |lines|
  {
    if lines == [] {
    } else {
      JoinedLength(lines[1..], sep);
    }
  }

  lemma FieldsLength(s: string, sep: char)
    ensures |s| == Total(Fields(s, sep)) + |Fields(s, sep)| - 1
  {
    var cut := CutLines(s, sep);
    CutKeepsAll(s, sep);
    JoinedLength(cut.lines, sep);
    TotalAppend(cut.lines, [cut.rest]);
    assert Total([cut.rest]) == |cut.rest| by { assert [cut.rest][1..] == []; }
    hide CutLines, Joined;
  }

  lemma {:induction false} TotalAtMost(parts: seq<string>, most: nat)
    requires forall i :: 0 <= i < |parts| ==> |parts[i]| <= most
    ensures Total(parts) <= most * |parts|
  {
    if parts == [] {
    } else {
      TotalAtMost(parts[1..], most);
    }
  }

  lemma {:induction false} TotalAtLeast(parts: seq<string>)
    requires forall i :: 0 <= i < |parts| ==> 1 <= |parts[i]|
    ensures |parts| <= Total(parts)
  {
    if parts == [] {
    } else {
      TotalAtLeast(parts[1..]);
    }
  }

  lemma Ipv4Plain(s: string)
    requires IsIpv4(s)
    ensures forall k :: 0 <= k < |s| ==> IsDigit(s[k]) || s[k] == '.'
    ensures 7 <= |s| <= 15
  {
    var octets := Fields(s, '.');
    forall i | 0 <= i < 4
      ensures 1 <= |octets[i]| <= 3 && All(octets[i], IsDigit)
    {
      assert IsOctet(octets[i]);
    }
    hide Fields, IsOctet;
    FieldChars(s, '.', IsDigit);
    FieldsLength(s, '.');
    TotalAtMost(octets, 3);
    TotalAtLeast(octets);
  }

  lemma HextetsTotal(parts: seq<string>)
    requires AllHextets(parts)
    ensures Total(parts) <= 4 * |parts|
  {
    forall i | 0 <= i < |parts|
      ensures |parts[i]| <= 4
    {
      assert IsHextet(parts[i]);
    }
    TotalAtMost(parts, 4);
  }

  /** One side of the gap is either its hextets, or a single empty end. */
  lemma HighTotal(side: seq<string>)
    requires side != []
    requires var high := if side[0] == "" then side[1..] else side; AllHextets(high) && (side[0] == "" ==> high == [])
    ensures Total(side) <= 4 * |if side[0] == "" then side[1..] else side|
  {
    if side[0] != "" {
      HextetsTotal(side);
    }
  }

  lemma LowTotal(side: seq<string>)
    requires side != []
    requires var last := side[|side| - 1];
             var low := if last == "" then side[..|side| - 1] else side; AllHextets(low) && (last == "" ==> low == [])
    ensures Total(side) <= 4 * |if side[|side| - 1] == "" then side[..|side| - 1] else side|
  {
    if side[|side| - 1] != "" {
      HextetsTotal(side);
    } else {
      assert side[1..] == [];
    }
  }

  lemma TotalAround(a: seq<string>, b: seq<string>)
    ensures Total(a + [""] + b) == Total(a) + Total(b)
  {
    TotalAppend(a + [""], b);
    TotalAppend(a, [""]);
    assert [""][1..] == [];
  }

  lemma Slices(parts: seq<string>, k: nat)
    requires 0 < k < |parts| - 1
    ensures parts[1..k] == parts[..k][1..]
    ensures parts[k + 1..|parts| - 1] == parts[k + 1..][..|parts| - k - 2]
  {
  }

  lemma GapTotal(parts: seq<string>, k: nat)
    requires 0 < k < |parts| - 1 && parts[k] == "" && AroundGap(parts, k)
    ensures Total(parts) <= 28
  {
    var a, b := parts[..k], parts[k + 1..];
    Slices(parts, k);
    OneCut(parts, "", k);
    hide AllHextets, Total;
    HighTotal(a);
    LowTotal(b);
    TotalAround(a, b);
  }

  lemma PartsTotal(parts: seq<string>)
    requires |parts| >= 3 && WellParted(parts)
    ensures Total(parts) + |parts| <= 40
  {
    var k := Gap(parts, 1);
    if k < |parts| - 1 {
      GapTotal(parts, k);
    } else {
      HextetsTotal(parts);
    }
  }

  /** The part of an address that a plain field check sees. */
  predicate HexOrDot(c: char) { IsHex(c) || c == '.' }

  lemma HextetPlain(part: string)
    requires IsHextet(part) || part == ""
    ensures All(part, HexOrDot)
  {
  }

  lemma PartPlain(parts: seq<string>, i: nat)
    requires |parts| >= 3 && WellParted(parts) && i < |parts|
    ensures IsHextet(parts[i]) || parts[i] == ""
  {
    var k := Gap(parts, 1);
    if k < |parts| - 1 {
      Slices(parts, k);
      var a, b := parts[..k], parts[k + 1..];
      if i < k {
        assert parts[i] == a[i];
        if parts[0] == "" { assert a[1..] == []; assert i == 0; } else { assert IsHextet(a[i]); }
      } else if i > k {
        var j := i - k - 1;
        assert parts[i] == b[j];
        if parts[|parts| - 1] == "" { assert b[..|b| - 1] == []; assert j == 0; } else { assert IsHextet(b[j]); }
      }
    }
  }

  lemma FieldPlain(fields: seq<string>, i: nat)
    requires |fields| >= 3 && i < |fields| && WellParted(Widened(fields))
    requires '.' in fields[|fields| - 1] ==> IsIpv4(fields[|fields| - 1])
    ensures All(fields[i], HexOrDot)
  {
    var last := fields[|fields| - 1];
    if '.' in last && i == |fields| - 1 {
      Ipv4Plain(last);
    } else {
      assert Widened(fields)[i] == fields[i];
      hide WellParted;
      PartPlain(Widened(fields), i);
      HextetPlain(fields[i]);
    }
  }

  lemma WidenedTotal(fields: seq<string>)
    requires fields != []
    requires '.' in fields[|fields| - 1] ==> |fields[|fields| - 1]| <= 15
    ensures Total(fields) + |fields| - 1 <= Total(Widened(fields)) + |Widened(fields)| + 5
  {
    var last, init := fields[|fields| - 1], fields[..|fields| - 1];
    assert fields == init + [last];
    TotalAppend(init, [last]);
    assert [last][1..] == [];
    TotalAppend(init, ["0000", "0000"]);
    assert ["0000", "0000"][1..] == ["0000"] && ["0000"][1..] == [];
  }

  lemma Ipv6Plain(s: string)
    requires IsIpv6(s)
    ensures All(s, AddressChar) && 2 <= |s| <= 45
  {
    var fields := Fields(s, ':');
    var last := fields[|fields| - 1];
    if '.' in last { Ipv4Plain(last); }
    hide WellParted, Widened, IsIpv4, CutLines;
    forall i | 0 <= i < |fields|
      ensures All(fields[i], HexOrDot)
    {
      FieldPlain(fields, i);
    }
    FieldChars(s, ':', HexOrDot);
    FieldsLength(s, ':');
    WidenedTotal(fields);
    PartsTotal(Widened(fields));
  }

  /** An address passes the helper's looser check too: hex digits, colons and dots, 2 to 45 of them. */
  lemma AddressPlain(s: string)
    requires IsAddress(s)
    ensures All(s, AddressChar) && 2 <= |s| <= 45
  {
    if IsIpv4(s) {
      Ipv4Plain(s);
    } else {
      Ipv6Plain(s);
    }
  }

  /** What a strict domain consists of. */
  predicate DomainChar(c: char) { IsLabelChar(c) || c == '.' }

  lemma LastField(s: string, sep: char)
    requires var fields := Fields(s, sep); fields[|fields| - 1] != ""
    ensures var last := Fields(s, sep)[|Fields(s, sep)| - 1];
            s != "" && s[|s| - 1] == last[|last| - 1]
  {
    CutKeepsAll(s, sep);
    hide CutLines, Joined;
  }

  lemma DomainPlain(s: string)
    requires IsDomain(s) && s != ""
    ensures All(s, DomainChar) && s[|s| - 1] != '.'
  {
    var labels := Fields(s, '.');
    hide Fields;
    forall i | 0 <= i < |labels|
      ensures All(labels[i], IsLabelChar)
    {
      assert IsLabel(labels[i]);
    }
    assert IsLabel(labels[|labels| - 1]);
    LastField(s, '.');
    FieldChars(s, '.', IsLabelChar);
  }

  lemma StripPlain(s: string)
    requires forall k :: 0 <= k < |s| ==> !IsBlank(s[k])
    ensures Strip(s) == s
  {
  }

  lemma DomainUnblank(domain: string)
    requires forall k :: 0 <= k < |domain| ==> DomainChar(domain[k])
    ensures forall k :: 0 <= k < |domain| ==> !IsBlank(domain[k])
  {
  }

  lemma NoDotsToStrip(domain: string)
    requires domain == "" || domain[|domain| - 1] != '.'
    ensures StripDots(domain) == domain
  {
  }

  /** Cleaning a clean domain changes nothing: what is stored passes the same check as itself. */
  lemma ValidatedAgain(value: string)
    requires ValidateDomain(value).Some?
    ensures ValidateDomain(ValidateDomain(value).value) == ValidateDomain(value)
  {
    hide IsDomain, Lower, Strip, StripDots, DomainChar, IsBlank;
    var domain := ValidateDomain(value).value;
    LowerOfLower(StripDots(Strip(value)));
    DomainPlain(domain);
    DomainUnblank(domain);
    StripPlain(domain);
    NoDotsToStrip(domain);
  }

  lemma AddressUnblank(address: string)
    requires All(address, AddressChar)
    ensures forall k :: 0 <= k < |address| ==> !IsBlank(address[k])
  {
    assert forall k :: 0 <= k < |address| ==> AddressChar(address[k]);
  }

  lemma AddressAgain(value: string)
    requires ValidateAddress(value).Some?
    ensures ValidateAddress(ValidateAddress(value).value) == ValidateAddress(value)
  {
    hide IsAddress, Strip, IsBlank, AddressChar;
    var address := ValidateAddress(value).value;
    AddressPlain(address);
    AddressUnblank(address);
    StripPlain(address);
  }

  // ---- what passes, and as what ----

  ghost predicate Blank(s: string) {
    forall k :: 0 <= k < |s| ==> IsBlank(s[k])
  }

  lemma {:induction false} StripLeftAll(left: string, m: string)
    requires Blank(left) && (m == "" || !IsBlank(m[0]))
    ensures StripLeft(left + m) == m
  {
    if left == "" {
      assert left + m == m;
    } else {
      assert (left + m)[0] == left[0] && (left + m)[1..] == left[1..] + m;
      StripLeftAll(left[1..], m);
    }
  }

  lemma {:induction false} StripRightAll(m: string, right: string)
    requires Blank(right) && (m == "" || !IsBlank(m[|m| - 1]))
    ensures StripRight(m + right) == m
  {
    if right == "" {
      assert m + right == m;
    } else {
      var n := |right| - 1;
      assert (m + right)[..|m| + n] == m + right[..n] && (m + right)[|m| + n] == right[n];
      StripRightAll(m, right[..n]);
    }
  }

  /** Blanks around a text go, and nothing else. */
  lemma StripExactly(left: string, m: string, right: string)
    requires Blank(left) && Blank(right) && m != "" && !IsBlank(m[0]) && !IsBlank(m[|m| - 1])
    ensures Strip(left + m + right) == m
  {
    assert left + m + right == left + (m + right);
    assert (m + right)[0] == m[0];
    hide Blank, IsBlank;
    StripLeftAll(left, m + right);
    StripRightAll(m, right);
  }

  lemma {:induction false} StripDotsAll(m: string, dots: string)
    requires (forall k :: 0 <= k < |dots| ==> dots[k] == '.') && (m == "" || m[|m| - 1] != '.')
    ensures StripDots(m + dots) == m
  {
    if dots == "" {
      assert m + dots == m;
    } else {
      var n := |dots| - 1;
      assert (m + dots)[..|m| + n] == m + dots[..n] && (m + dots)[|m| + n] == '.';
      StripDotsAll(m, dots[..n]);
    }
  }

  /** `d` is `s` with its capital letters made small. */
  ghost predicate Small(s: string, d: string) {
    |d| == |s| && forall k :: 0 <= k < |s| ==> d[k] == if 'A' <= s[k] <= 'Z' then (s[k] as int + 32) as char else s[k]
  }

  lemma LowerIsSmall(s: string)
    ensures Small(s, Lower(s))
  {
    forall k | 0 <= k < |s|
      ensures Lower(s)[k] == if 'A' <= s[k] <= 'Z' then (s[k] as int + 32) as char else s[k]
    {
      LowerAt(s, k);
    }
  }

  /** One to 63 letters, digits and hyphens, with no hyphen at either end. */
  predicate Labelled(s: string) {
    && 1 <= |s| <= 63 && s[0] != '-' && s[|s| - 1] != '-'
    && forall k :: 0 <= k < |s| ==> 'a' <= s[k] <= 'z' || 'A' <= s[k] <= 'Z' || '0' <= s[k] <= '9' || s[k] == '-'
  }

  /**
   A domain is taken without the blanks around it and the dots at its end, in small letters, if that has at most 253
   characters and each label between dots is well formed; otherwise it is refused.
   */
  lemma DomainExactly(left: string, name: string, dots: string, right: string, d: string)
    requires Blank(left) && Blank(right) && forall k :: 0 <= k < |dots| ==> dots[k] == '.'
    requires name != "" && !IsBlank(name[0]) && !IsBlank(name[|name| - 1]) && name[|name| - 1] != '.' && Small(name, d)
    ensures ValidateDomain(left + (name + dots) + right) ==
            if |d| <= 253 && forall i :: 0 <= i < |Fields(d, '.')| ==> Labelled(Fields(d, '.')[i]) then Some(d) else None
  {
    var m := name + dots;
    assert m[0] == name[0] && !IsBlank(m[|m| - 1]);
    StripExactly(left, m, right);
    StripDotsAll(name, dots);
    LowerIsSmall(name);
    assert Lower(name) == d;
    hide Fields, Strip, StripDots, Lower, Blank;
    assert forall i :: 0 <= i < |Fields(d, '.')| ==> IsLabel(Fields(d, '.')[i]) == Labelled(Fields(d, '.')[i]);
  }

  /** The decimal text of a number. */
  function Decimal(v: nat): (s: string)
    ensures s != ""
  {
    if v < 10 then [(v + '0' as int) as char] else Decimal(v / 10) + [(v % 10 + '0' as int) as char]
  }

  lemma {:induction false} DecimalReads(v: nat)
    requires v <= 255
    ensures IsOctet(Decimal(v)) && Number(Decimal(v)) == v
  {
    var s := Decimal(v);
    if v < 10 {
      assert s[..0] == "";
    } else {
      DecimalReads(v / 10);
      assert s[..|s| - 1] == Decimal(v / 10) && Number(s) == 10 * (v / 10) + v % 10;
      DecimalLength(v / 10);
    }
  }

  lemma DecimalLength(v: nat)
    requires 1 <= v <= 25
    ensures |Decimal(v)| <= 2 && Decimal(v)[0] != '0'
  {
  }

  lemma DecimalSnoc(head: nat, c: char)
    requires head >= 1 && IsDigit(c)
    ensures Decimal(10 * head + (c as int - '0' as int)) == Decimal(head) + [c]
  {
    var v := 10 * head + (c as int - '0' as int);
    assert v / 10 == head && v % 10 == c as int - '0' as int;
  }

  lemma {:induction false} DigitsAreDecimal(s: string)
    requires s != "" && (s[0] == '0' ==> |s| == 1) && forall k :: 0 <= k < |s| ==> IsDigit(s[k])
    ensures Number(s) >= 0 && (s[0] != '0' ==> Number(s) >= 1) && Decimal(Number(s)) == s
  {
    var n := |s| - 1;
    assert IsDigit(s[n]);
    if n == 0 {
      assert s[..0] == "";
    } else {
      hide Decimal;
      var init := s[..n];
      assert init[0] == s[0] && s == init + [s[n]];
      DigitsAreDecimal(init);
      DecimalSnoc(Number(init), s[n]);
      hide IsDigit;
    }
  }

  /** The four numbers in decimal, each of the first three followed by a dot. */
  ghost predicate Quad(s: string, a: nat, b: nat, c: nat, d: nat) {
    && a <= 255 && b <= 255 && c <= 255 && d <= 255
    && s == Joined([Decimal(a), Decimal(b), Decimal(c)], '.') + Decimal(d)
  }

  lemma OctetIsDecimal(s: string)
    requires IsOctet(s)
    ensures 0 <= Number(s) <= 255 && Decimal(Number(s)) == s
  {
    DigitsAreDecimal(s);
    hide Number, Decimal, IsDigit;
  }

  lemma FourFields(s: string)
    requires IsIpv4(s)
    ensures var f := Fields(s, '.');
            |f| == 4 && IsOctet(f[0]) && IsOctet(f[1]) && IsOctet(f[2]) && IsOctet(f[3]) && s == Joined([f[0], f[1], f[2]], '.') + f[3]
  {
    CutKeepsAll(s, '.');
    var cut := CutLines(s, '.');
    hide CutLines, Joined, IsOctet;
    assert cut.lines == [Fields(s, '.')[0], Fields(s, '.')[1], Fields(s, '.')[2]];
  }

  lemma QuadOf(s: string)
    requires IsIpv4(s)
    ensures exists a, b, c, d :: Quad(s, a, b, c, d)
  {
    var f := Fields(s, '.');
    hide *;
    FourFields(s);
    OctetIsDecimal(f[0]);
    OctetIsDecimal(f[1]);
    OctetIsDecimal(f[2]);
    OctetIsDecimal(f[3]);
    QuadHolds(s, Number(f[0]), Number(f[1]), Number(f[2]), Number(f[3]));
  }

  lemma QuadHolds(s: string, a: nat, b: nat, c: nat, d: nat)
    requires a <= 255 && b <= 255 && c <= 255 && d <= 255
    requires s == Joined([Decimal(a), Decimal(b), Decimal(c)], '.') + Decimal(d)
    ensures Quad(s, a, b, c, d)
  {
  }

  lemma FreeOfDots(s: string)
    requires IsOctet(s)
    ensures Free(s, '.')
  {
  }

  lemma FieldsAre(s: string, lines: seq<string>, rest: string)
    requires |lines| == 3 && s == Joined(lines, '.') + rest
    requires IsOctet(lines[0]) && IsOctet(lines[1]) && IsOctet(lines[2]) && IsOctet(rest)
    ensures IsIpv4(s)
  {
    hide IsOctet, CutLines, Joined;
    FreeOfDots(lines[0]);
    FreeOfDots(lines[1]);
    FreeOfDots(lines[2]);
    FreeOfDots(rest);
    CutIsUnique(lines, rest, '.');
    assert Fields(s, '.') == lines + [rest];
  }

  lemma QuadIs(s: string, a: nat, b: nat, c: nat, d: nat)
    requires Quad(s, a, b, c, d)
    ensures IsIpv4(s)
  {
    hide Decimal, IsOctet, Joined, IsIpv4, Number;
    DecimalReads(a);
    DecimalReads(b);
    DecimalReads(c);
    DecimalReads(d);
    FieldsAre(s, [Decimal(a), Decimal(b), Decimal(c)], Decimal(d));
  }

  /** An IPv4 literal is four numbers up to 255, written without leading zeros, with dots between. */
  lemma Ipv4Exactly(s: string)
    ensures IsIpv4(s) <==> exists a, b, c, d :: Quad(s, a, b, c, d)
  {
    hide IsIpv4, Quad;
    if IsIpv4(s) { QuadOf(s); }
    if a, b, c, d :| Quad(s, a, b, c, d) {
      QuadIs(s, a, b, c, d);
    }
  }
}
