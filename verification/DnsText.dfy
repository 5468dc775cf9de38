/** The dnsmasq configuration text: what a rule set renders to, and what a text parses back to. */
module DnsText {
  import opened Framing
  import opened Options
  import opened Sorting
  import opened DnsGrammar

  datatype DomainRule = DomainRule(id: nat, domain: string, address: string)

  datatype FallbackRule = FallbackRule(id: nat, address: string, position: int)

  datatype ParsedRule = ParsedDomain(domain: string, address: string) | ParsedFallback(address: string)

  const MANAGED := "# Managed by vpn-connect."
  const KEEP_OUT := " Do not edit -- changes here"
  const WHY := " are overwritten on the next save."
  const HEADER := MANAGED + KEEP_OUT + WHY

  // ---- rendering ----

  function ByDomain(): (DomainRule, DomainRule) -> bool {
    (a: DomainRule, b: DomainRule) => StringLeq(a.domain, b.domain)
  }

  function ByPosition(): (FallbackRule, FallbackRule) -> bool {
    (a: FallbackRule, b: FallbackRule) => a.position <= b.position
  }

  function DomainLine(r: DomainRule): string {
    "server=/" + r.domain + "/" + r.address
  }

  function FallbackLine(r: FallbackRule): string {
    "server=" + r.address
  }

  function DomainLines(rules: seq<DomainRule>): (lines: seq<string>)
    ensures |lines| == |rules|
  {
    if rules == [] then [] else DomainLines(rules[..|rules| - 1]) + [DomainLine(rules[|rules| - 1])]
  }

  function FallbackLines(rules: seq<FallbackRule>): (lines: seq<string>)
    ensures |lines| == |rules|
  {
    if rules == [] then [] else FallbackLines(rules[..|rules| - 1]) + [FallbackLine(rules[|rules| - 1])]
  }

  function RenderedLines(domains: seq<DomainRule>, fallbacks: seq<FallbackRule>): (lines: seq<string>)
    ensures |lines| == 1 + |domains| + |fallbacks|
  {
    [HEADER] + DomainLines(Sort(domains, ByDomain())) + FallbackLines(Sort(fallbacks, ByPosition()))
  }

  /** Every line, the last one too, ends in a newline. */
  function Render(domains: seq<DomainRule>, fallbacks: seq<FallbackRule>): string {
    Joined(RenderedLines(domains, fallbacks), '\n')
  }

  method RenderDnsmasq(domainRules: seq<DomainRule>, fallbackRules: seq<FallbackRule>) returns (text: string)
    ensures text == Render(domainRules, fallbackRules)
  {
    hide DomainLine, FallbackLine;
    var lines := [HEADER];
    var domains := Sort(domainRules, ByDomain());
    for i := 0 to |domains|
      invariant lines == [HEADER] + DomainLines(domains[..i])
    {
      assert domains[..i + 1][..i] == domains[..i];
      lines := lines + [DomainLine(domains[i])];
    }
    assert domains[..|domains|] == domains;
    var fallbacks := Sort(fallbackRules, ByPosition());
    for i := 0 to |fallbacks|
      invariant lines == [HEADER] + DomainLines(domains) + FallbackLines(fallbacks[..i])
    {
      assert fallbacks[..i + 1][..i] == fallbacks[..i];
      lines := lines + [FallbackLine(fallbacks[i])];
    }
    assert fallbacks[..|fallbacks|] == fallbacks;
    text := Joined(lines, '\n');
  }

  // ---- parsing ----

  predicate IsBreak(c: char) {
    || '\n' <= c <= '\r' || '\U{1c}' <= c <= '\U{1e}'
    || c == '\U{85}' || c == '\U{2028}' || c == '\U{2029}'
  }

  function FindBreak(s: string): (i: nat)
    ensures i <= |s| && (i < |s| ==> IsBreak(s[i]))
    ensures forall k :: 0 <= k < i ==> !IsBreak(s[k])
  {
    if s == "" || IsBreak(s[0]) then 0 else 1 + FindBreak(s[1..])
  }

  /** Python's `splitlines`. */
  function SplitLines(s: string): seq<string>
    decreases |s|
  {
    if s == "" then []
    else
      var i := FindBreak(s);
      if i == |s| then [s]
      else
        var skip := if s[i] == '\r' && i + 1 < |s| && s[i + 1] == '\n' then 2 else 1;
        [s[..i]] + SplitLines(s[i + skip..])
  }

  datatype Verdict = Skipped | Rule(rule: ParsedRule) | Unknown

  const DOMAIN_PREFIX := "server=/"
  const FALLBACK_PREFIX := "server="

  /** The two parts of `server=/domain/address`, if the line has that shape. */
  function DomainParts(line: string): Option<(string, string)> {
    if !(DOMAIN_PREFIX <= line) then None
    else
      var rest := line[8..];
      var i := Find(rest, '/');
      if 0 < i && i + 1 < |rest| then Some((rest[..i], rest[i + 1..])) else None
  }

  /** The address of `server=address`, if the line has that shape. */
  function FallbackPart(line: string): Option<string> {
    if FALLBACK_PREFIX <= line && |line| > 7 && Find(line[7..], '/') == |line| - 7 then Some(line[7..]) else None
  }

  function Classify(raw: string): Verdict {
    var line := Strip(raw);
    if line == "" || line[0] == '#' then Skipped
    else
      var parts := DomainParts(line);
      if parts.Some? then
        var (domain, address) := (ValidateDomain(parts.value.0), ValidateAddress(parts.value.1));
        if domain.None? || address.None? then Unknown else Rule(ParsedDomain(domain.value, address.value))
      else
        var part := FallbackPart(line);
        if part.None? || ValidateAddress(part.value).None? then Unknown
        else Rule(ParsedFallback(ValidateAddress(part.value).value))
  }

  datatype Parsed = Parsed(rules: seq<ParsedRule>, unparsed: seq<string>)

  function ParseLines(lines: seq<string>): Parsed {
    if lines == [] then Parsed([], [])
    else
      var (earlier, raw) := (ParseLines(lines[..|lines| - 1]), lines[|lines| - 1]);
      match Classify(raw)
      case Skipped => earlier
      case Rule(rule) => earlier.(rules := earlier.rules + [rule])
      case Unknown => earlier.(unparsed := earlier.unparsed + [raw])
  }

  method ParseDnsmasq(text: string) returns (parsed: seq<ParsedRule>, unparsed: seq<string>)
    ensures Parsed(parsed, unparsed) == ParseLines(SplitLines(text))
  {
    hide ValidateDomain, ValidateAddress, Strip, SplitLines;
    parsed, unparsed := [], [];
    var lines := SplitLines(text);
    for n := 0 to |lines|
      invariant Parsed(parsed, unparsed) == ParseLines(lines[..n])
    {
      assert lines[..n + 1][..n] == lines[..n];
      var raw := lines[n];
      var line := Strip(raw);
      if line == "" || line[0] == '#' {
        continue;
      }
      var domainMatch := DomainParts(line);
      if domainMatch.Some? {
        var domain := ValidateDomain(domainMatch.value.0);
        var address := ValidateAddress(domainMatch.value.1);
        if domain.None? || address.None? {
          unparsed := unparsed + [raw];
          continue;
        }
        parsed := parsed + [ParsedDomain(domain.value, address.value)];
        continue;
      }
      var fallbackMatch := FallbackPart(line);
      if fallbackMatch.Some? {
        var address := ValidateAddress(fallbackMatch.value);
        if address.None? {
          unparsed := unparsed + [raw];
          continue;
        }
        parsed := parsed + [ParsedFallback(address.value)];
        continue;
      }
      unparsed := unparsed + [raw];
    }
    assert lines[..|lines|] == lines;
  }

  // ---- what becomes of a line ----

  /** `server=/domain/address` is a rule if both parts can be cleaned, and reported otherwise. */
  lemma DomainShape(raw: string, d: string, a: string)
    requires Strip(raw) == "server=/" + d + "/" + a && d != "" && a != "" && '/' !in d
    ensures Classify(raw) == if ValidateDomain(d).Some? && ValidateAddress(a).Some?
                             then Rule(ParsedDomain(ValidateDomain(d).value, ValidateAddress(a).value)) else Unknown
  {
    var r := DomainRule(0, d, a);
    assert forall k :: 0 <= k < |d| ==> d[k] in d;
    DomainLineParts(r);
    assert Strip(raw) == DomainLine(r) && DomainLine(r)[0] == 's';
    hide Strip, ValidateDomain, ValidateAddress, DomainParts, DomainLine;
  }

  /** `server=address` likewise. */
  lemma FallbackShape(raw: string, a: string)
    requires Strip(raw) == "server=" + a && a != "" && '/' !in a
    ensures Classify(raw) == if ValidateAddress(a).Some? then Rule(ParsedFallback(ValidateAddress(a).value)) else Unknown
  {
    var r := FallbackRule(0, a, 0);
    assert forall k :: 0 <= k < |a| ==> a[k] in a;
    FallbackLineParts(r);
    assert Strip(raw) == FallbackLine(r) && FallbackLine(r)[0] == 's';
    hide Strip, ValidateAddress, DomainParts, FallbackPart, FallbackLine;
  }

  /** Blank lines and comments are skipped, and every line of another shape is reported. */
  lemma OtherShape(raw: string)
    ensures Classify(raw) == Skipped <==> Strip(raw) == "" || Strip(raw)[0] == '#'
    ensures Classify(raw).Rule? ==>
              || (exists d, a :: Strip(raw) == "server=/" + d + "/" + a && d != "" && a != "")
              || (exists a :: Strip(raw) == "server=" + a && a != "")
  {
    var line := Strip(raw);
    hide Strip, ValidateDomain, ValidateAddress;
    if DomainParts(line).Some? {
      var (d, a) := DomainParts(line).value;
      assert line == "server=/" + d + "/" + a;
    } else if FallbackPart(line).Some? {
      assert line == "server=" + line[7..];
    }
  }

  ghost function Telling(lines: seq<string>): set<nat> {
    set i | 0 <= i < |lines| && Strip(lines[i]) != "" && Strip(lines[i])[0] != '#'
  }

  lemma TellingSnoc(lines: seq<string>, raw: string)
    ensures Telling(lines + [raw]) == Telling(lines) + if Strip(raw) != "" && Strip(raw)[0] != '#' then {|lines|} else {}
    ensures |lines| !in Telling(lines)
  {
    var all := lines + [raw];
    hide Strip;
    assert all[|lines|] == raw && forall i :: 0 <= i < |lines| ==> all[i] == lines[i];
  }

  /** No line is lost: each that is neither blank nor a comment is a rule or is reported as it stands. */
  lemma {:induction false} NothingDropped(lines: seq<string>)
    ensures |ParseLines(lines).rules| + |ParseLines(lines).unparsed| == |Telling(lines)|
    ensures forall raw :: raw in ParseLines(lines).unparsed ==> raw in lines
  {
    if lines == [] {
      assert Telling(lines) == {};
    } else {
      var init, raw := lines[..|lines| - 1], lines[|lines| - 1];
      assert lines == init + [raw];
      NothingDropped(init);
      OtherShape(raw);
      TellingSnoc(init, raw);
      hide Classify, Telling, Strip;
    }
  }

  // ---- round trip ----

  /** A rule the application would save. */
  predicate ValidDomain(r: DomainRule) {
    ValidateDomain(r.domain) == Some(r.domain) && IsAddress(r.address)
  }

  predicate ValidFallback(r: FallbackRule) {
    IsAddress(r.address)
  }

  /** Only characters that no step of reading gives a meaning of its own. */
  predicate PlainChar(c: char) {
    !IsBlank(c) && !IsBreak(c)
  }

  lemma AddressReads(a: string)
    requires IsAddress(a)
    ensures All(a, PlainChar) && a != "" && Free(a, '/') && ValidateAddress(a) == Some(a)
  {
    AddressPlain(a);
    assert forall k :: 0 <= k < |a| ==> AddressChar(a[k]);
    StripPlain(a);
    hide IsAddress;
  }

  lemma DomainReads(d: string)
    requires ValidateDomain(d) == Some(d)
    ensures All(d, PlainChar) && d != "" && Free(d, '/') && All(d, DomainChar) && |d| <= MAX_DOMAIN_LENGTH
  {
    DomainPlain(d);
    assert forall k :: 0 <= k < |d| ==> DomainChar(d[k]);
    hide IsDomain;
  }

  lemma PlainAppend(a: string, b: string)
    requires All(a, PlainChar) && All(b, PlainChar)
    ensures All(a + b, PlainChar)
  {
  }

  lemma DomainLineParts(r: DomainRule)
    requires Free(r.domain, '/') && r.domain != "" && r.address != ""
    ensures DomainParts(DomainLine(r)) == Some((r.domain, r.address))
  {
    var rest := r.domain + ['/'] + r.address;
    assert DomainLine(r) == DOMAIN_PREFIX + rest;
    assert (DOMAIN_PREFIX + rest)[8..] == rest;
    FindIn(r.domain, '/', r.address);
    HeadOff(r.domain, '/', r.address);
  }

  lemma FallbackLineParts(r: FallbackRule)
    requires Free(r.address, '/') && r.address != ""
    ensures DomainParts(FallbackLine(r)).None? && FallbackPart(FallbackLine(r)) == Some(r.address)
  {
    var line := FallbackLine(r);
    assert line[7..] == r.address && line[7] == r.address[0] != '/';
    assert !(DOMAIN_PREFIX <= line) by { assert DOMAIN_PREFIX[7] == '/'; }
  }

  /** A line that starts with `s` and has no blanks is read as it stands. */
  lemma StripLine(line: string)
    requires All(line, PlainChar)
    ensures Strip(line) == line
  {
    assert forall k :: 0 <= k < |line| ==> PlainChar(line[k]);
    StripPlain(line);
  }

  lemma DomainLinePlain(r: DomainRule)
    requires All(r.domain, PlainChar) && All(r.address, PlainChar)
    ensures All(DomainLine(r), PlainChar) && DomainLine(r)[0] == 's'
  {
    assert All(DOMAIN_PREFIX, PlainChar) && All("/", PlainChar) && DOMAIN_PREFIX[0] == 's';
    hide All;
    PlainAppend(DOMAIN_PREFIX, r.domain);
    PlainAppend(DOMAIN_PREFIX + r.domain, "/");
    PlainAppend(DOMAIN_PREFIX + r.domain + "/", r.address);
  }

  lemma FallbackLinePlain(r: FallbackRule)
    requires All(r.address, PlainChar)
    ensures All(FallbackLine(r), PlainChar) && FallbackLine(r)[0] == 's'
  {
    assert All(FALLBACK_PREFIX, PlainChar) && FALLBACK_PREFIX[0] == 's';
    hide All;
    PlainAppend(FALLBACK_PREFIX, r.address);
  }

  lemma DomainLineReads(r: DomainRule)
    requires ValidDomain(r)
    ensures Classify(DomainLine(r)) == Rule(ParsedDomain(r.domain, r.address))
    ensures All(DomainLine(r), PlainChar)
  {
    DomainReads(r.domain);
    AddressReads(r.address);
    DomainLinePlain(r);
    DomainLineParts(r);
    hide All, ValidateDomain, ValidateAddress, Strip, DomainParts, IsAddress, DomainLine;
    StripLine(DomainLine(r));
  }

  lemma FallbackLineReads(r: FallbackRule)
    requires ValidFallback(r)
    ensures Classify(FallbackLine(r)) == Rule(ParsedFallback(r.address))
    ensures All(FallbackLine(r), PlainChar)
  {
    AddressReads(r.address);
    FallbackLinePlain(r);
    FallbackLineParts(r);
    hide All, ValidateAddress, Strip, DomainParts, FallbackPart, IsAddress, FallbackLine;
    StripLine(FallbackLine(r));
  }

  predicate NoBreak(c: char) { !IsBreak(c) }

  ghost predicate Whole(lines: seq<string>) {
    forall i :: 0 <= i < |lines| ==> All(lines[i], NoBreak)
  }

  lemma BreakIn(line: string, more: string)
    requires All(line, NoBreak)
    ensures FindBreak(line + "\n" + more) == |line|
  {
    var s := line + "\n" + more;
    assert s[|line|] == '\n';
    assert forall k :: 0 <= k < |line| ==> s[k] == line[k] && NoBreak(line[k]);
  }

  lemma SplitOne(line: string, later: string)
    requires All(line, NoBreak)
    ensures SplitLines(line + "\n" + later) == [line] + SplitLines(later)
  {
    BreakIn(line, later);
    HeadOff(line, '\n', later);
    hide FindBreak, All, IsBreak;
  }

  lemma {:induction false} SplitJoined(lines: seq<string>)
    requires Whole(lines)
    ensures SplitLines(Joined(lines, '\n')) == lines
  {
    if lines == [] {
    } else {
      SplitJoined(lines[1..]);
      assert lines == [lines[0]] + lines[1..];
      hide SplitLines, All;
      SplitOne(lines[0], Joined(lines[1..], '\n'));
    }
  }

  function DomainsParsed(rules: seq<DomainRule>): (r: seq<ParsedRule>) {
    if rules == [] then []
    else DomainsParsed(rules[..|rules| - 1]) + [ParsedDomain(rules[|rules| - 1].domain, rules[|rules| - 1].address)]
  }

  function FallbacksParsed(rules: seq<FallbackRule>): (r: seq<ParsedRule>) {
    if rules == [] then [] else FallbacksParsed(rules[..|rules| - 1]) + [ParsedFallback(rules[|rules| - 1].address)]
  }

  lemma ParseSnoc(lines: seq<string>, raw: string)
    ensures ParseLines(lines + [raw]) ==
            match Classify(raw)
            case Skipped => ParseLines(lines)
            case Rule(rule) => ParseLines(lines).(rules := ParseLines(lines).rules + [rule])
            case Unknown => ParseLines(lines).(unparsed := ParseLines(lines).unparsed + [raw])
  {
    assert (lines + [raw])[..|lines|] == lines;
    hide Classify;
  }

  lemma {:induction false} DomainsRead(before: seq<string>, rules: seq<DomainRule>)
    requires forall i :: 0 <= i < |rules| ==> ValidDomain(rules[i])
    requires Whole(before)
    ensures ParseLines(before + DomainLines(rules)) ==
            ParseLines(before).(rules := ParseLines(before).rules + DomainsParsed(rules))
    ensures Whole(before + DomainLines(rules))
  {
    if rules == [] {
      assert before + [] == before;
    } else {
      var init, r := rules[..|rules| - 1], rules[|rules| - 1];
      DomainsRead(before, init);
      DomainLineReads(r);
      hide ValidDomain, Classify, DomainLine;
      Associates(before, DomainLines(init), [DomainLine(r)]);
      ParseSnoc(before + DomainLines(init), DomainLine(r));
      Associates(ParseLines(before).rules, DomainsParsed(init), [ParsedDomain(r.domain, r.address)]);
      WholeSnoc(before + DomainLines(init), DomainLine(r));
    }
  }

  lemma WholeSnoc(lines: seq<string>, line: string)
    requires Whole(lines) && All(line, PlainChar)
    ensures Whole(lines + [line])
  {
    assert forall k :: 0 <= k < |line| ==> PlainChar(line[k]);
  }

  lemma {:induction false} FallbacksRead(before: seq<string>, rules: seq<FallbackRule>)
    requires forall i :: 0 <= i < |rules| ==> ValidFallback(rules[i])
    requires Whole(before)
    ensures ParseLines(before + FallbackLines(rules)) ==
            ParseLines(before).(rules := ParseLines(before).rules + FallbacksParsed(rules))
    ensures Whole(before + FallbackLines(rules))
  {
    if rules == [] {
      assert before + [] == before;
    } else {
      var init, r := rules[..|rules| - 1], rules[|rules| - 1];
      FallbacksRead(before, init);
      FallbackLineReads(r);
      hide ValidFallback, Classify, FallbackLine;
      Associates(before, FallbackLines(init), [FallbackLine(r)]);
      ParseSnoc(before + FallbackLines(init), FallbackLine(r));
      Associates(ParseLines(before).rules, FallbacksParsed(init), [ParsedFallback(r.address)]);
      WholeSnoc(before + FallbackLines(init), FallbackLine(r));
    }
  }

  ghost predicate AllValid(domains: seq<DomainRule>, fallbacks: seq<FallbackRule>) {
    && (forall i :: 0 <= i < |domains| ==> ValidDomain(domains[i]))
    && (forall i :: 0 <= i < |fallbacks| ==> ValidFallback(fallbacks[i]))
  }

  lemma SortedValid(domains: seq<DomainRule>, fallbacks: seq<FallbackRule>)
    requires AllValid(domains, fallbacks)
    ensures AllValid(Sort(domains, ByDomain()), Sort(fallbacks, ByPosition()))
  {
    forall r | r in Sort(domains, ByDomain())
      ensures ValidDomain(r)
    {
      SortIn(domains, ByDomain(), r);
    }
    forall r | r in Sort(fallbacks, ByPosition())
      ensures ValidFallback(r)
    {
      SortIn(fallbacks, ByPosition(), r);
    }
    hide ValidDomain, ValidFallback, Sort;
  }

  lemma {:induction false} StripRightKeepsHead(s: string)
    requires s != "" && !IsBlank(s[0])
    ensures StripRight(s) != "" && StripRight(s)[0] == s[0]
  {
    if IsBlank(s[|s| - 1]) {
      StripRightKeepsHead(s[..|s| - 1]);
    }
  }

  predicate Printable(c: char) { ' ' <= c <= '~' }

  lemma ManagedPlain()
    ensures All(MANAGED, Printable) && MANAGED != "" && MANAGED[0] == '#'
  {
  }

  lemma KeepOutPlain()
    ensures All(KEEP_OUT, Printable)
  {
  }

  lemma WhyPlain()
    ensures All(WHY, Printable)
  {
  }

  lemma PrintableAppend(a: string, b: string)
    requires All(a, Printable) && All(b, Printable)
    ensures All(a + b, Printable)
  {
  }

  lemma PrintableNoBreak(s: string)
    requires All(s, Printable)
    ensures All(s, NoBreak)
  {
    assert forall k :: 0 <= k < |s| ==> Printable(s[k]);
  }

  lemma HeaderLine()
    ensures All(HEADER, NoBreak) && HEADER != "" && HEADER[0] == '#'
  {
    ManagedPlain();
    KeepOutPlain();
    WhyPlain();
    hide MANAGED, KEEP_OUT, WHY, All;
    PrintableAppend(MANAGED, KEEP_OUT);
    PrintableAppend(MANAGED + KEEP_OUT, WHY);
    PrintableNoBreak(HEADER);
  }

  lemma HeaderSkipped()
    ensures ParseLines([HEADER]) == Parsed([], []) && Whole([HEADER])
  {
    HeaderLine();
    var text: string := HEADER;
    hide HEADER, MANAGED, KEEP_OUT, WHY, All;
    StripRightKeepsHead(text);
    assert StripLeft(text) == text;
    var lines: seq<string> := [text];
    assert lines[..0] == [];
    assert Classify(text) == Skipped;
  }

  lemma NothingBefore(rules: seq<ParsedRule>)
    ensures [] + rules == rules
  {
  }

  lemma RenderedLinesRead(domains: seq<DomainRule>, fallbacks: seq<FallbackRule>)
    requires AllValid(domains, fallbacks)
    ensures ParseLines(RenderedLines(domains, fallbacks)) ==
            Parsed(DomainsParsed(Sort(domains, ByDomain())) + FallbacksParsed(Sort(fallbacks, ByPosition())), [])
    ensures Whole(RenderedLines(domains, fallbacks))
  {
    SortedValid(domains, fallbacks);
    HeaderSkipped();
    hide ParseLines, Whole, Sort, HEADER;
    DomainsRead([HEADER], Sort(domains, ByDomain()));
    FallbacksRead([HEADER] + DomainLines(Sort(domains, ByDomain())), Sort(fallbacks, ByPosition()));
    NothingBefore(DomainsParsed(Sort(domains, ByDomain())));
  }

  /**
   A rendered rule set parses back to its domain rules in the order of their names followed by its fallbacks in
   the order of their positions, and nothing is left unparsed.
   */
  lemma ParseOfRender(domains: seq<DomainRule>, fallbacks: seq<FallbackRule>)
    requires AllValid(domains, fallbacks)
    ensures ParseLines(SplitLines(Render(domains, fallbacks))) ==
            Parsed(DomainsParsed(Sort(domains, ByDomain())) + FallbacksParsed(Sort(fallbacks, ByPosition())), [])
  {
    RenderedLinesRead(domains, fallbacks);
    hide ParseLines, Whole, Sort, RenderedLines, DomainsParsed, FallbacksParsed;
    SplitJoined(RenderedLines(domains, fallbacks));
  }

  /** That order is a total one on the names, so the rendered file does not depend on how rows happen to be stored. */
  lemma NamesInOrder(domains: seq<DomainRule>)
    ensures Sorted(Sort(domains, ByDomain()), ByDomain())
    ensures multiset(Sort(domains, ByDomain())) == multiset(domains)
  {
    var leq := ByDomain();
    forall a, b
      ensures leq(a, b) || leq(b, a)
    {
      StringTotal(a.domain, b.domain);
    }
    forall a, b, c | leq(a, b) && leq(b, c)
      ensures leq(a, c)
    {
      StringTransitive(a.domain, b.domain, c.domain);
    }
    hide StringLeq;
    SortSorted(domains, leq);
    SortSame(domains, leq);
  }
}
