/**
 DNS rules as the application manages them: a transaction on the table, then the whole table rendered, staged
 and handed to the root helper, whose answer is at most a warning.
 */
module DnsRules {
  import opened Options
  import opened DnsGrammar
  import opened DnsText
  import opened DnsTable
  import opened DnsEffects
  import opened DnsHelper

  /**
   How the helper's run goes: whether it runs at all, what systemctl answers to it, which of its file commands
   fails, if it gets that far, leaving what in a half-written copy, and whether the application still waits for it
   when it ends.  A helper killed on its way is one whose next file command fails.
   */
  datatype Circumstance = Circumstance(
    runs: bool, isActive: bool, restartAnswer: bool, secondAnswer: bool, broken: nat, rubbish: Option<string>,
    answered: bool)

  /** No file command fails: a run issues fewer. */
  predicate Unbroken(c: Circumstance) {
    c.runs && c.broken >= FILE_COMMANDS
  }

  /** What the rules live in: the table, the files, and all that has happened to them. */
  datatype World = World(table: Table, files: Files, trail: seq<Files>, restarts: seq<Files>)

  function TextOf(t: Table): string {
    Render(t.domains, t.fallbacks)
  }

  /** What is on disk after the text has been staged and the helper asked to install it. */
  ghost predicate AppliedOver(before: Files, after: Files, text: string, c: Circumstance, warning: bool) {
    && after.staged == Some(text)
    && LiveIsOneOf(after, before.live, Some(text))
    && (BackupHasLive(before) ==> BackupHasLive(after))
    && (!warning ==> after.live == Some(text) && after.working == None && after.previous == None && after.legacy == None)
    && (Unbroken(c) && Accepts(text) ==>
          && after.live == (if c.isActive && !c.restartAnswer then before.live else Some(text))
          && after.working == None && after.legacy == None
          && (BackupHasLive(before) ==> after.previous == None))
    && ((c.runs && Accepts(text)) || after == before.(staged := Some(text)))
  }

  /** The application hears of every run that did not end with the new rules in force. */
  ghost predicate Warned(text: string, c: Circumstance, warning: bool) {
    && (!warning ==> c.runs && c.isActive && c.restartAnswer && c.answered && Accepts(text))
    && (Unbroken(c) && c.isActive && c.restartAnswer && c.answered && Accepts(text) ==> !warning)
  }

  /**
   What happened on the way, warned of or not: no third text was ever live, no legacy rules were gone, and no
   restart saw two rule files.
   */
  ghost predicate Watched(seen: seq<Files>, trail: seq<Files>, was: seq<Files>, restarts: seq<Files>, before: Files, text: string) {
    && seen <= trail && was <= restarts
    && (forall i :: |seen| <= i < |trail| ==> OnTheWay(before.(staged := Some(text)), trail[i]))
    && (forall i :: |was| <= i < |restarts| ==> !TwoVisible(restarts[i]))
  }

  /** One request: the table as it is now is applied, unless the request was refused. */
  ghost predicate Served(before: World, after: World, refused: bool, c: Circumstance, warning: bool) {
    if refused then !warning && after == before.(table := after.table)
    else
      var text := TextOf(after.table);
      && AppliedOver(before.files, after.files, text, c, warning) && Warned(text, c, warning)
      && Watched(before.trail, after.trail, before.restarts, after.restarts, before.files, text)
  }

  /** On a sound table only the number of rules can be refused. */
  lemma SoundIsAccepted(t: Table)
    requires Inv(t)
    ensures Accepts(TextOf(t)) <==> |t.domains| + |t.fallbacks| <= MAX_LINES - 1
  {
    hide Accepts, Render;
    RenderedIsAccepted(t.domains, t.fallbacks);
  }

  class Rules {
    const installer: Installer
    var table: Table

    constructor (installer: Installer)
      ensures this.installer == installer && table == Table([], [])
    {
      this.installer := installer;
      table := Table([], []);
    }

    ghost function Now(): World
      reads this, installer
    {
      World(table, installer.files, installer.trail, installer.restarts)
    }

    /** Stages the rendering of the table; never fails, but may warn. */
    method Apply(c: Circumstance) returns (warning: bool)
      modifies installer
      ensures Served(old(Now()), Now(), false, c, warning)
    {
      hide Accepts, Render;
      var text := RenderDnsmasq(table.domains, table.fallbacks);
      installer.Set(installer.files.(staged := Some(text)));
      if !c.runs {
        return true;
      }
      var outcome := installer.DnsApply(c.isActive, c.restartAnswer, c.secondAnswer, c.broken, c.rubbish);
      // a refusal comes back as the error's text, an inactive resolver as what the helper printed
      warning := outcome != Applied || !c.answered;
    }

    method Add(kind: string, domain: Option<string>, address: string, c: Circumstance) returns (reply: Reply, warning: bool)
      modifies this, installer
      ensures (table, reply) == AddRule(old(table), kind, domain, address)
      ensures reply.Refused? ==> table == old(table)
      ensures Inv(old(table)) ==> Added(old(table), table, kind, domain, address, reply)
      ensures Served(old(Now()), Now(), reply.Refused?, c, warning)
    {
      hide AddRule, AppliedOver, Warned, Watched, TextOf, Inv, Added;
      if Inv(table) { AddExactly(table, kind, domain, address); }
      RefusedChangesNothing(table, AddOp(kind, domain, address));
      var (t, r) := AddRule(table, kind, domain, address);
      if r.Refused? {
        return r, false;
      }
      table := t;
      warning := Apply(c);
      reply := r;
    }

    method Delete(id: nat, c: Circumstance) returns (reply: Reply, warning: bool)
      modifies this, installer
      ensures (table, reply) == DeleteRule(old(table), id)
      ensures reply.Refused? ==> table == old(table)
      ensures Inv(old(table)) ==> Removed(old(table), table, id, reply)
      ensures Served(old(Now()), Now(), reply.Refused?, c, warning)
    {
      if Inv(table) { InvHas(table); DeleteExactly(table, id); }
      hide DeleteRule, AppliedOver, Warned, Watched, TextOf, Inv, Removed, UniqueIds, UniqueNames, UniquePositions;
      RefusedChangesNothing(table, DeleteOp(id));
      var (t, r) := DeleteRule(table, id);
      if r.Refused? {
        return r, false;
      }
      table := t;
      warning := Apply(c);
      reply := r;
    }

    method Move(id: nat, direction: string, c: Circumstance) returns (reply: Reply, warning: bool)
      modifies this, installer
      ensures (table, reply) == MoveRule(old(table), id, direction)
      ensures reply.Refused? ==> table == old(table)
      ensures Inv(old(table)) ==> MovedOne(old(table), table, id, direction, reply)
      ensures Served(old(Now()), Now(), reply.Refused?, c, warning)
    {
      if Inv(table) { InvHas(table); MoveExactly(table, id, direction); }
      hide MoveRule, AppliedOver, Warned, Watched, TextOf, Inv, MovedOne, UniqueIds, UniqueNames, UniquePositions;
      RefusedChangesNothing(table, MoveOp(id, direction));
      var (t, r) := MoveRule(table, id, direction);
      if r.Refused? {
        return r, false;
      }
      table := t;
      warning := Apply(c);
      reply := r;
    }

    /** Adds every rule of a legacy file, one transaction each, and applies once; the first refusal ends it. */
    method ImportLegacy(rules: seq<ParsedRule>, c: Circumstance) returns (refused: bool, warning: bool)
      modifies this, installer
      ensures (table, refused) == Imported(old(table), rules)
      ensures Served(old(Now()), Now(), refused, c, warning)
    {
      hide AddParsed, AppliedOver, Warned, Watched, TextOf;
      for n := 0 to |rules|
        invariant Imported(old(table), rules[..n]) == (table, false)
        invariant installer.files == old(installer.files)
        invariant installer.trail == old(installer.trail) && installer.restarts == old(installer.restarts)
      {
        ImportedStep(old(table), rules, n);
        var (t, r) := AddParsed(table, rules[n]);
        if r.Refused? {
          return true, false;
        }
        table := t;
      }
      assert rules[..|rules|] == rules;
      refused := false;
      warning := Apply(c);
    }
  }

  function AddParsed(t: Table, rule: ParsedRule): (Table, Reply) {
    match rule
    case ParsedDomain(domain, address) => AddRule(t, "domain", Some(domain), address)
    case ParsedFallback(address) => AddRule(t, "fallback", None, address)
  }

  /** The table after the import, and whether a rule was refused on the way. */
  function Imported(t: Table, rules: seq<ParsedRule>): (Table, bool) {
    if rules == [] then (t, false)
    else
      var (earlier, refused) := Imported(t, rules[..|rules| - 1]);
      if refused then (earlier, true)
      else
        var (later, reply) := AddParsed(earlier, rules[|rules| - 1]);
        if reply.Refused? then (earlier, true) else (later, false)
  }

  lemma {:induction false} ImportedMonotone(t: Table, rules: seq<ParsedRule>, n: nat)
    requires n <= |rules| && Imported(t, rules[..n]).1
    ensures Imported(t, rules) == Imported(t, rules[..n])
  {
    if n < |rules| {
      assert rules[..|rules| - 1][..n] == rules[..n];
      ImportedMonotone(t, rules[..|rules| - 1], n);
    } else {
      assert rules[..n] == rules;
    }
  }

  lemma ImportedStep(t: Table, rules: seq<ParsedRule>, n: nat)
    requires n < |rules| && !Imported(t, rules[..n]).1
    ensures var before := Imported(t, rules[..n]).0;
            var (later, reply) := AddParsed(before, rules[n]);
            if reply.Refused? then Imported(t, rules) == (before, true) else Imported(t, rules[..n + 1]) == (later, false)
  {
    assert rules[..n + 1][..n] == rules[..n];
    hide AddParsed;
    if AddParsed(Imported(t, rules[..n]).0, rules[n]).1.Refused? {
      ImportedMonotone(t, rules, n + 1);
    }
  }

  // ---- when an import is whole ----

  /** What the parser hands over is already in the form the table stores. */
  predicate ParsedValid(rule: ParsedRule) {
    ValidateAddress(rule.address) == Some(rule.address)
    && (rule.ParsedDomain? ==> ValidateDomain(rule.domain) == Some(rule.domain))
  }

  lemma ClassifyValid(raw: string)
    ensures Classify(raw).Rule? ==> ParsedValid(Classify(raw).rule)
  {
    var line := Strip(raw);
    var (parts, part) := (DomainParts(line), FallbackPart(line));
    hide Strip, DomainParts, FallbackPart, ValidateDomain, ValidateAddress;
    if parts.Some? {
      if ValidateDomain(parts.value.0).Some? { ValidatedAgain(parts.value.0); }
      if ValidateAddress(parts.value.1).Some? { AddressAgain(parts.value.1); }
    } else if part.Some? {
      if ValidateAddress(part.value).Some? { AddressAgain(part.value); }
    }
  }

  lemma {:induction false} ParseValid(lines: seq<string>)
    ensures forall i :: 0 <= i < |ParseLines(lines).rules| ==> ParsedValid(ParseLines(lines).rules[i])
  {
    if lines == [] {
    } else {
      ParseValid(lines[..|lines| - 1]);
      ClassifyValid(lines[|lines| - 1]);
      hide Classify, ParsedValid;
    }
  }

  function FallbackAddresses(rules: seq<ParsedRule>): seq<string> {
    if rules == [] then []
    else
      FallbackAddresses(rules[..|rules| - 1])
      + if rules[|rules| - 1].ParsedFallback? then [rules[|rules| - 1].address] else []
  }

  ghost predicate Distinct(s: seq<string>) {
    forall i, j :: 0 <= i < j < |s| ==> s[i] != s[j]
  }

  ghost predicate Lists(rows: seq<FallbackRule>, addresses: seq<string>) {
    |rows| == |addresses| && forall k :: 0 <= k < |rows| ==> rows[k].address == addresses[k]
  }

  lemma FallbackAdded(t: Table, address: string, addresses: seq<string>)
    requires Lists(t.fallbacks, addresses) && Distinct(addresses)
    ensures AddFallback(t, address).1.Refused? <==> !Distinct(addresses + [address])
    ensures AddFallback(t, address).1.Done? ==> Lists(AddFallback(t, address).0.fallbacks, addresses + [address])
  {
    var more := addresses + [address];
    assert forall k :: 0 <= k < |addresses| ==> more[k] == addresses[k];
    assert more[|addresses|] == address;
    var i := WithAddress(t.fallbacks, address);
    hide NextId, LastPosition;
    if i < |t.fallbacks| {
      assert more[i] == more[|addresses|];
    }
  }

  lemma ParsedAdded(t: Table, rule: ParsedRule)
    requires ParsedValid(rule)
    ensures rule.ParsedFallback? ==> AddParsed(t, rule) == AddFallback(t, rule.address)
    ensures rule.ParsedDomain? ==> AddParsed(t, rule).1.Done? && AddParsed(t, rule).0.fallbacks == t.fallbacks
  {
    hide ValidateAddress, ValidateDomain, NextId, LastPosition;
  }

  /**
   The import is not one transaction.  Into an empty table it goes through if and only if no fallback server is
   listed twice; otherwise it stops at the repetition and what came before stays.
   */
  lemma {:induction false} ImportIsWholeExactly(rules: seq<ParsedRule>)
    requires forall i :: 0 <= i < |rules| ==> ParsedValid(rules[i])
    ensures var (t, refused) := Imported(Table([], []), rules);
            && (refused <==> !Distinct(FallbackAddresses(rules)))
            && (refused ==> t.fallbacks != [])
            && (!refused ==> Lists(t.fallbacks, FallbackAddresses(rules)))
  {
    if rules == [] {
    } else {
      var init, rule := rules[..|rules| - 1], rules[|rules| - 1];
      var before, addresses := Imported(Table([], []), init).0, FallbackAddresses(init);
      ImportIsWholeExactly(init);
      ParsedAdded(before, rule);
      hide ParsedValid, AddParsed, AddFallback;
      DistinctPrefix(addresses, rule.address);
      assert addresses + [] == addresses;
      if Distinct(addresses) && rule.ParsedFallback? {
        FallbackAdded(before, rule.address, addresses);
        RefusedHasOne(before, rule.address, addresses);
      }
    }
  }

  lemma DistinctPrefix(addresses: seq<string>, address: string)
    ensures Distinct(addresses + [address]) ==> Distinct(addresses)
  {
    var more := addresses + [address];
    assert forall k :: 0 <= k < |addresses| ==> more[k] == addresses[k];
  }

  lemma RefusedHasOne(t: Table, address: string, addresses: seq<string>)
    ensures AddFallback(t, address).1.Refused? ==> AddFallback(t, address).0 == t && t.fallbacks != []
  {
  }

  /** The address the last listed rule for a name gives it. */
  function LastAddress(rules: seq<ParsedRule>, name: string): Option<string> {
    if rules == [] then None
    else
      var rule := rules[|rules| - 1];
      if rule.ParsedDomain? && rule.domain == name then Some(rule.address) else LastAddress(rules[..|rules| - 1], name)
  }

  /** The rows are the names listed, each once and with the address listed last. */
  ghost predicate Assigned(rows: seq<DomainRule>, rules: seq<ParsedRule>) {
    && UniqueNames(rows)
    && (forall i :: 0 <= i < |rows| ==> LastAddress(rules, rows[i].domain) == Some(rows[i].address))
    && (forall name :: LastAddress(rules, name).Some? ==> exists i :: 0 <= i < |rows| && rows[i].domain == name)
  }

  lemma AssignedSnoc(t: Table, rules: seq<ParsedRule>, name: string, address: string)
    requires Assigned(t.domains, rules)
    ensures Assigned(AddDomain(t, name, address).0.domains, rules + [ParsedDomain(name, address)])
  {
    var more := rules + [ParsedDomain(name, address)];
    assert more[..|rules|] == rules;
    forall other
      ensures LastAddress(more, other) == if other == name then Some(address) else LastAddress(rules, other)
    {
    }
    hide LastAddress, NextId;
    var rows, rows' := t.domains, AddDomain(t, name, address).0.domains;
    assert UniqueNames(rows');
    forall other | LastAddress(more, other).Some?
      ensures exists i :: 0 <= i < |rows'| && rows'[i].domain == other
    {
      var i := WithName(t.domains, name);
      if other == name {
        assert rows'[i].domain == name;
      } else {
        var k :| 0 <= k < |rows| && rows[k].domain == other;
        assert rows'[k].domain == other;
      }
    }
  }

  lemma AssignedSame(rows: seq<DomainRule>, rules: seq<ParsedRule>, address: string)
    requires Assigned(rows, rules)
    ensures Assigned(rows, rules + [ParsedFallback(address)])
  {
    assert (rules + [ParsedFallback(address)])[..|rules|] == rules;
  }

  lemma ParsedAsDomain(t: Table, rule: ParsedRule)
    requires ParsedValid(rule)
    ensures rule.ParsedDomain? ==> AddParsed(t, rule) == AddDomain(t, rule.domain, rule.address)
  {
    hide ValidateAddress, ValidateDomain, AddDomain;
  }

  lemma ParsedAssigned(t: Table, rules: seq<ParsedRule>, rule: ParsedRule)
    requires ParsedValid(rule) && Assigned(t.domains, rules)
    ensures AddParsed(t, rule).1.Done? ==> Assigned(AddParsed(t, rule).0.domains, rules + [rule])
  {
    ParsedAsDomain(t, rule);
    ParsedAdded(t, rule);
    hide ParsedValid, AddParsed, Assigned, AddDomain, AddFallback;
    match rule
    case ParsedDomain(name, address) => AssignedSnoc(t, rules, name, address);
    case ParsedFallback(address) =>
      AssignedSame(t.domains, rules, address);
      FallbackKeepsDomains(t, address);
  }

  lemma ImportedLast(t: Table, rules: seq<ParsedRule>)
    requires rules != [] && !Imported(t, rules).1
    ensures var (init, last) := (rules[..|rules| - 1], rules[|rules| - 1]);
            && !Imported(t, init).1 && AddParsed(Imported(t, init).0, last).1.Done?
            && Imported(t, rules).0 == AddParsed(Imported(t, init).0, last).0
  {
    hide AddParsed;
  }

  lemma NothingImported()
    ensures Assigned(Imported(Table([], []), []).0.domains, [])
  {
  }

  /** An import that goes through leaves each domain of the file once, with the address listed last for it. */
  lemma {:induction false} ImportedDomains(rules: seq<ParsedRule>)
    requires forall i :: 0 <= i < |rules| ==> ParsedValid(rules[i])
    ensures !Imported(Table([], []), rules).1 ==> Assigned(Imported(Table([], []), rules).0.domains, rules)
  {
    hide *;
    if rules == [] {
      NothingImported();
    } else if !Imported(Table([], []), rules).1 {
      var init, rule := rules[..|rules| - 1], rules[|rules| - 1];
      assert rules == init + [rule];
      ImportedLast(Table([], []), rules);
      ImportedDomains(init);
      ParsedAssigned(Imported(Table([], []), init).0, init, rule);
    }
  }

  lemma FallbackKeepsDomains(t: Table, address: string)
    ensures AddFallback(t, address).0.domains == t.domains
  {
  }

  /** The smallest case: the same server twice. */
  lemma RepeatedServerLeavesHalf(address: string)
    requires IsAddress(address)
    ensures var twice := [ParsedFallback(address), ParsedFallback(address)];
            var (t, refused) := Imported(Table([], []), twice);
            refused && |t.fallbacks| == 1
  {
    AddressReads(address);
    var once: seq<ParsedRule> := [ParsedFallback(address)];
    var twice := [ParsedFallback(address), ParsedFallback(address)];
    assert once[..0] == [] && twice[..1] == once;
    hide ValidateAddress, IsAddress, NextId, LastPosition;
    ParsedAdded(Table([], []), ParsedFallback(address));
    var t := AddFallback(Table([], []), address).0;
    assert Imported(Table([], []), []) == (Table([], []), false);
    assert Imported(Table([], []), once) == (t, false) by { hide AddParsed; }
    ParsedAdded(t, ParsedFallback(address));
  }
}
