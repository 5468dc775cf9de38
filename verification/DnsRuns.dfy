/** The DNS rules over any sequence of requests, whatever becomes of each one's helper run. */
module DnsRuns {
  import opened Options
  import opened Sorting
  import opened DnsGrammar
  import opened DnsText
  import opened DnsTable
  import opened DnsEffects
  import opened DnsHelper
  import opened DnsRules

  datatype Request = Ask(op: Op) | Import(rules: seq<ParsedRule>)

  datatype Turn = Turn(request: Request, c: Circumstance, warning: bool)

  /** The table after a request, and whether the request was refused. */
  function Asked(t: Table, r: Request): (Table, bool) {
    match r
    case Ask(op) => (DnsTable.Apply(t, op).0, DnsTable.Apply(t, op).1.Refused?)
    case Import(rules) => Imported(t, rules)
  }

  ghost predicate Next(w: World, turn: Turn, w': World) {
    var (t, refused) := Asked(w.table, turn.request);
    w'.table == t && Served(w, w', refused, turn.c, turn.warning)
  }

  /** Each request of the panel is one step. */
  method Answer(rules: Rules, request: Request, c: Circumstance) returns (warning: bool)
    modifies rules, rules.installer
    ensures Next(old(rules.Now()), Turn(request, c, warning), rules.Now())
  {
    hide Served, AddRule, DeleteRule, MoveRule, Imported;
    match request
    case Ask(AddOp(kind, domain, address)) =>
      var _, w := rules.Add(kind, domain, address, c);
      warning := w;
    case Ask(DeleteOp(id)) =>
      var _, w := rules.Delete(id, c);
      warning := w;
    case Ask(MoveOp(id, direction)) =>
      var _, w := rules.Move(id, direction, c);
      warning := w;
    case Import(parsed) =>
      var _, w := rules.ImportLegacy(parsed, c);
      warning := w;
  }

  ghost predicate Run(worlds: seq<World>, turns: seq<Turn>) {
    && |worlds| == |turns| + 1
    && forall i :: 0 <= i < |turns| ==> Next(worlds[i], turns[i], worlds[i + 1])
  }

  // ---- what every run keeps ----

  ghost predicate Sound(w: World) {
    && Inv(w.table) && BackupHasLive(w.files)
    && (forall i :: 0 <= i < |w.trail| ==> BackupHasLive(w.trail[i]))
    && (forall i :: 0 <= i < |w.restarts| ==> !TwoVisible(w.restarts[i]))
  }

  lemma {:induction false} ImportKeeps(t: Table, rules: seq<ParsedRule>)
    requires Inv(t)
    ensures Inv(Imported(t, rules).0)
  {
    hide Inv, AddRule;
    if rules == [] {
    } else {
      ImportKeeps(t, rules[..|rules| - 1]);
      var before := Imported(t, rules[..|rules| - 1]).0;
      match rules[|rules| - 1]
      case ParsedDomain(domain, address) => AddKeeps(before, "domain", Some(domain), address);
      case ParsedFallback(address) => AddKeeps(before, "fallback", None, address);
    }
  }

  lemma AskedKeeps(t: Table, r: Request)
    requires Inv(t)
    ensures Inv(Asked(t, r).0)
  {
    hide Inv, DnsTable.Apply, Imported;
    match r
    case Ask(op) => ApplyKeeps(t, op);
    case Import(rules) => ImportKeeps(t, rules);
  }

  lemma NextKeeps(w: World, turn: Turn, w': World)
    requires Next(w, turn, w') && Sound(w)
    ensures Sound(w')
  {
    AskedKeeps(w.table, turn.request);
    hide Inv, Asked, TextOf, Accepts;
    forall i | |w.trail| <= i < |w'.trail|
      ensures BackupHasLive(w'.trail[i])
    {
      assert OnTheWay(w.files.(staged := Some(TextOf(w'.table))), w'.trail[i]);
    }
  }

  /** No restart ever saw two rule files, and at no moment was there a backup without a live file. */
  lemma {:induction false} EveryRunIsSound(worlds: seq<World>, turns: seq<Turn>, i: nat)
    requires Run(worlds, turns) && Sound(worlds[0]) && i <= |turns|
    ensures Sound(worlds[i])
  {
    if i > 0 {
      NextAt(worlds, turns, i);
      hide Sound, Next, Run;
      EveryRunIsSound(worlds, turns, i - 1);
      NextKeeps(worlds[i - 1], turns[i - 1], worlds[i]);
    }
  }

  // ---- which texts are ever live or staged ----

  /** The table as it was after turn `j` was handed to the helper. */
  ghost predicate AppliedAt(worlds: seq<World>, turns: seq<Turn>, j: nat)
    requires Run(worlds, turns)
  {
    0 < j <= |turns| && !Asked(worlds[j - 1].table, turns[j - 1].request).1
  }

  /** A text that was live at first, or the rendering of a table applied up to turn `k`. */
  ghost predicate Known(worlds: seq<World>, turns: seq<Turn>, k: nat, live: Option<string>)
    requires Run(worlds, turns)
  {
    || live == worlds[0].files.live
    || exists j :: 0 < j <= k && AppliedAt(worlds, turns, j) && live == Some(TextOf(worlds[j].table))
  }

  /** What a step shows is what was live before it or the text it applies. */
  lemma NextShows(w: World, turn: Turn, w': World, f: Files)
    requires Next(w, turn, w') && (f == w'.files || (f in w'.trail && f !in w.trail))
    ensures f.live == w.files.live || (!Asked(w.table, turn.request).1 && f.live == Some(TextOf(w'.table)))
  {
    hide Asked, TextOf, Accepts, Warned;
    if f in w'.trail && f !in w.trail {
      var i :| 0 <= i < |w'.trail| && w'.trail[i] == f;
      assert i >= |w.trail|;
    }
  }

  lemma KnownLater(worlds: seq<World>, turns: seq<Turn>, k: nat, live: Option<string>)
    requires Run(worlds, turns) && Known(worlds, turns, k, live)
    ensures Known(worlds, turns, k + 1, live)
  {
    hide AppliedAt;
  }

  /** At every moment of every run the live file is the one found at first or the rendering of a table reached. */
  lemma {:induction false} EveryTextIsKnown(worlds: seq<World>, turns: seq<Turn>, i: nat, f: Files)
    requires Run(worlds, turns) && worlds[0].trail == [] && i <= |turns|
    requires f == worlds[i].files || f in worlds[i].trail
    ensures Known(worlds, turns, i, f.live)
  {
    if i > 0 {
      NextAt(worlds, turns, i);
      hide Next, Run, Known, TextOf;
      EveryTextIsKnown(worlds, turns, i - 1, worlds[i - 1].files);
      KnownLater(worlds, turns, i - 1, worlds[i - 1].files.live);
      if f in worlds[i - 1].trail && f != worlds[i].files {
        EveryTextIsKnown(worlds, turns, i - 1, f);
        KnownLater(worlds, turns, i - 1, f.live);
      } else {
        NextShows(worlds[i - 1], turns[i - 1], worlds[i], f);
        AppliedIsKnown(worlds, turns, i);
      }
    }
  }

  lemma AppliedIsKnown(worlds: seq<World>, turns: seq<Turn>, i: nat)
    requires Run(worlds, turns) && 0 < i <= |turns|
    ensures !Asked(worlds[i - 1].table, turns[i - 1].request).1 ==> Known(worlds, turns, i, Some(TextOf(worlds[i].table)))
  {
    hide Asked, TextOf, Next;
    assert AppliedAt(worlds, turns, i) ==> Known(worlds, turns, i, Some(TextOf(worlds[i].table)));
  }

  lemma NextAt(worlds: seq<World>, turns: seq<Turn>, i: nat)
    requires Run(worlds, turns) && 0 < i <= |turns|
    ensures Next(worlds[i - 1], turns[i - 1], worlds[i])
  {
    hide Next;
  }

  lemma AppliedNext(worlds: seq<World>, turns: seq<Turn>, i: nat)
    requires Run(worlds, turns) && AppliedAt(worlds, turns, i)
    ensures 0 < i <= |turns| && |worlds| == |turns| + 1
    ensures Next(worlds[i - 1], turns[i - 1], worlds[i]) && !Asked(worlds[i - 1].table, turns[i - 1].request).1
  {
    hide Next, Asked;
  }

  lemma RefusedNext(worlds: seq<World>, turns: seq<Turn>, i: nat)
    requires Run(worlds, turns) && 0 < i <= |turns| && !AppliedAt(worlds, turns, i)
    ensures |worlds| == |turns| + 1
    ensures Next(worlds[i - 1], turns[i - 1], worlds[i]) && Asked(worlds[i - 1].table, turns[i - 1].request).1
  {
    hide Next, Asked;
  }

  lemma AppliedStages(w: World, turn: Turn, w': World)
    requires Next(w, turn, w') && !Asked(w.table, turn.request).1
    ensures w'.files.staged == Some(TextOf(w'.table))
  {
    hide TextOf, Accepts, Asked, Warned, Watched;
  }

  lemma RefusedKeeps(w: World, turn: Turn, w': World)
    requires Next(w, turn, w') && Asked(w.table, turn.request).1
    ensures w'.files == w.files && (turn.request.Ask? ==> w'.table == w.table)
  {
    hide DnsTable.Apply, Imported;
    if turn.request.Ask? {
      RefusedChangesNothing(w.table, turn.request.op);
    }
  }

  /**
   The staged text renders the table of the latest turn that was not refused.  That is the table as it is now, as
   long as what was refused since were single requests: a refused import has changed the table and staged nothing.
   */
  lemma {:induction false} StagedIsLatest(worlds: seq<World>, turns: seq<Turn>, j: nat, i: nat)
    requires Run(worlds, turns) && j <= i <= |turns| && AppliedAt(worlds, turns, j)
    requires forall m :: j < m <= i ==> !AppliedAt(worlds, turns, m)
    ensures worlds[i].files.staged == Some(TextOf(worlds[j].table))
    ensures (forall m :: j <= m < i ==> turns[m].request.Ask?) ==> worlds[i].table == worlds[j].table
  {
    hide *;
    if i == j {
      AppliedNext(worlds, turns, j);
      AppliedStages(worlds[j - 1], turns[j - 1], worlds[j]);
    } else {
      StagedIsLatest(worlds, turns, j, i - 1);
      RefusedNext(worlds, turns, i);
      RefusedKeeps(worlds[i - 1], turns[i - 1], worlds[i]);
    }
  }

  // ---- when the operator is warned ----

  /** What dnsmasq would read from the live file, in the order of the table. */
  ghost predicate InForce(live: Option<string>, t: Table) {
    && live.Some?
    && ParseLines(SplitLines(live.value)) ==
         Parsed(DomainsParsed(Sort(t.domains, ByDomain())) + FallbacksParsed(Sort(t.fallbacks, ByPosition())), [])
  }

  /** An applied turn that raises no warning leaves the rules of the table in force and no working file. */
  ghost predicate SilentIsDone(turn: Turn, w: World) {
    !turn.warning ==>
      && InForce(w.files.live, w.table)
      && w.files.working == None && w.files.previous == None && w.files.legacy == None
  }

  /**
   Where no file command fails it warns exactly if dnsmasq is down or refuses, nobody waits for the answer, or there
   are more rules than the helper takes; and short of those it leaves no working file either way.
   */
  ghost predicate WarnsAsItShould(turn: Turn, w: World) {
    var fits := |w.table.domains| + |w.table.fallbacks| <= MAX_LINES - 1;
    Unbroken(turn.c) ==>
      && (turn.warning <==> !turn.c.isActive || !turn.c.restartAnswer || !turn.c.answered || !fits)
      && (fits ==> w.files.working == None && w.files.previous == None)
  }

  lemma RenderingInForce(t: Table)
    requires Inv(t)
    ensures InForce(Some(TextOf(t)), t)
  {
    hide Render, ParseLines, SplitLines, DomainsParsed, FallbacksParsed, Sort, AllValid;
    ParseOfRender(t.domains, t.fallbacks);
  }

  lemma SoundHas(w: World)
    requires Sound(w)
    ensures Inv(w.table) && BackupHasLive(w.files)
  {
    hide Inv, BackupHasLive, TwoVisible;
  }

  lemma NextWarns(w: World, turn: Turn, w': World)
    requires Next(w, turn, w') && !Asked(w.table, turn.request).1 && BackupHasLive(w.files) && Inv(w'.table)
    ensures SilentIsDone(turn, w') && WarnsAsItShould(turn, w')
  {
    hide Asked, Accepts, Watched, TextOf, InForce, Inv, LiveIsOneOf;
    SoundIsAccepted(w'.table);
    RenderingInForce(w'.table);
  }

  /** Over every run, of every turn that was applied. */
  lemma WarnedExactly(worlds: seq<World>, turns: seq<Turn>, i: nat)
    requires Run(worlds, turns) && Sound(worlds[0]) && AppliedAt(worlds, turns, i)
    ensures SilentIsDone(turns[i - 1], worlds[i]) && WarnsAsItShould(turns[i - 1], worlds[i])
  {
    hide *;
    AppliedNext(worlds, turns, i);
    EveryRunIsSound(worlds, turns, i);
    EveryRunIsSound(worlds, turns, i - 1);
    SoundHas(worlds[i]);
    SoundHas(worlds[i - 1]);
    NextWarns(worlds[i - 1], turns[i - 1], worlds[i]);
  }

  // ---- what a request leaves in force ----

  ghost predicate HasRow(rows: seq<DomainRule>, name: string, address: string) {
    exists i :: 0 <= i < |rows| && rows[i].domain == name && rows[i].address == address
  }

  lemma {:induction false} ParsedDomainRows(rows: seq<DomainRule>, name: string, address: string)
    ensures ParsedDomain(name, address) in DomainsParsed(rows) <==> HasRow(rows, name, address)
  {
    if rows == [] {
    } else {
      var init, last := rows[..|rows| - 1], rows[|rows| - 1];
      ParsedDomainRows(init, name, address);
      assert rows == init + [last];
      if i :| 0 <= i < |rows| && rows[i].domain == name && rows[i].address == address {
        assert i == |init| || init[i] == rows[i];
      }
    }
  }

  lemma {:induction false} NoDomainParsed(rows: seq<FallbackRule>, rule: ParsedRule)
    ensures rule in FallbacksParsed(rows) ==> rule.ParsedFallback?
  {
    if rows != [] {
      NoDomainParsed(rows[..|rows| - 1], rule);
    }
  }

  lemma SortedHasRow(rows: seq<DomainRule>, name: string, address: string)
    ensures HasRow(rows, name, address) <==> HasRow(Sort(rows, ByDomain()), name, address)
  {
    var o := Sort(rows, ByDomain());
    SortSame(rows, ByDomain());
    hide Sort;
    if i :| 0 <= i < |rows| && rows[i].domain == name && rows[i].address == address {
      assert rows[i] in multiset(o);
      var j :| 0 <= j < |o| && o[j] == rows[i];
    }
    if i :| 0 <= i < |o| && o[i].domain == name && o[i].address == address {
      assert o[i] in multiset(rows);
      var j :| 0 <= j < |rows| && rows[j] == o[i];
    }
  }

  /** The rules in force have this address for the name if and only if the table does. */
  lemma InForceHas(live: Option<string>, t: Table, name: string, address: string)
    requires InForce(live, t)
    ensures ParsedDomain(name, address) in ParseLines(SplitLines(live.value)).rules <==> HasRow(t.domains, name, address)
  {
    var o, p := Sort(t.domains, ByDomain()), Sort(t.fallbacks, ByPosition());
    SortedHasRow(t.domains, name, address);
    ParsedDomainRows(o, name, address);
    NoDomainParsed(p, ParsedDomain(name, address));
    hide Sort, DomainsParsed, FallbacksParsed, ParseLines, SplitLines, HasRow;
    assert ParseLines(SplitLines(live.value)).rules == DomainsParsed(o) + FallbacksParsed(p);
  }

  lemma NamedHas(before: seq<DomainRule>, after: seq<DomainRule>, row: DomainRule, address: string)
    requires Named(before, after, row)
    ensures HasRow(after, row.domain, address) <==> address == row.address
  {
  }

  lemma AddedNamed(t: Table, domain: Option<string>, address: string) returns (row: DomainRule)
    requires Inv(t) && AddRule(t, "domain", domain, address).1.Done?
    ensures ValidateDomain(domain.GetOr("")) == Some(row.domain) && ValidateAddress(address) == Some(row.address)
    ensures Named(t.domains, AddRule(t, "domain", domain, address).0.domains, row)
  {
    AddExactly(t, "domain", domain, address);
    hide AddRule, ValidateDomain, ValidateAddress, Inv, Named, Used;
    row := DomainRule(AddRule(t, "domain", domain, address).1.id,
                      ValidateDomain(domain.GetOr("")).value, ValidateAddress(address).value);
  }

  lemma SilentInForce(w: World, turn: Turn, w': World)
    requires Sound(w) && Next(w, turn, w') && !turn.warning && !Asked(w.table, turn.request).1
    ensures InForce(w'.files.live, w'.table)
  {
    NextKeeps(w, turn, w');
    SoundHas(w);
    SoundHas(w');
    hide Next, Asked, Sound, Inv, BackupHasLive, InForce, WarnsAsItShould;
    NextWarns(w, turn, w');
  }

  /**
   From start to end: a domain rule that was accepted without a warning is the one rule for its cleaned name that the
   live file holds, with the cleaned address, whatever was listed for it before.
   */
  lemma AcceptedIsInForce(w: World, domain: Option<string>, address: string, c: Circumstance, w': World, other: string)
    requires Sound(w) && Next(w, Turn(Ask(AddOp("domain", domain, address)), c, false), w')
    requires !Asked(w.table, Ask(AddOp("domain", domain, address))).1
    ensures ValidateDomain(domain.GetOr("")).Some? && ValidateAddress(address).Some? && w'.files.live.Some?
    ensures var (name, clean) := (ValidateDomain(domain.GetOr("")).value, ValidateAddress(address).value);
            ParsedDomain(name, other) in ParseLines(SplitLines(w'.files.live.value)).rules <==> other == clean
  {
    SoundHas(w);
    assert w'.table == AddRule(w.table, "domain", domain, address).0 && AddRule(w.table, "domain", domain, address).1.Done?
    by { hide AddRule, Served; }
    SilentInForce(w, Turn(Ask(AddOp("domain", domain, address)), c, false), w');
    hide AddRule, Next, Sound, Inv, BackupHasLive, Named, ParseLines, SplitLines, ValidateDomain, ValidateAddress, Asked;
    var row := AddedNamed(w.table, domain, address);
    InForceHas(w'.files.live, w'.table, row.domain, other);
    NamedHas(w.table.domains, w'.table.domains, row, other);
  }
}
