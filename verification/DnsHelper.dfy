/**
 The root helper's side: its own grammar for a staged file, and installing that file with a way back.  What
 systemctl answers is arbitrary and any file command may fail.  Every state the files pass through is kept in a
 trail, so what holds of the whole trail also holds wherever a run is cut short.
 */
module DnsHelper {
  import opened Framing
  import opened Options
  import opened Sorting
  import opened DnsGrammar
  import opened DnsText

  const MAX_LINES := 2000

  // ---- the second grammar ----

  predicate AddressField(s: string) {
    2 <= |s| <= 45 && forall k :: 0 <= k < |s| ==> AddressChar(s[k])
  }

  predicate DomainField(s: string) {
    1 <= |s| <= 253 && forall k :: 0 <= k < |s| ==> DomainChar(s[k])
  }

  /** `server=/domain/address`; no domain character is a slash, so the first one ends the domain. */
  predicate AcceptedDomain(line: string) {
    && DOMAIN_PREFIX <= line
    && var rest := line[8..];
       var i := Find(rest, '/');
       i < |rest| && DomainField(rest[..i]) && AddressField(rest[i + 1..])
  }

  /** The patterns of one line. */
  predicate LineAccepted(line: string) {
    || line == "" || line[0] == '#'
    || AcceptedDomain(line)
    || (FALLBACK_PREFIX <= line && AddressField(line[7..]))
  }

  predicate NameLetter(c: char) {
    'A' <= c <= 'Z' || 'a' <= c <= 'z' || '0' <= c <= '9' || c == '.' || c == '-'
  }

  predicate AddressLetter(c: char) {
    '0' <= c <= '9' || 'A' <= c <= 'F' || 'a' <= c <= 'f' || c == ':' || c == '.'
  }

  predicate Made(s: string, least: nat, most: nat, letter: char -> bool) {
    least <= |s| <= most && forall k :: 0 <= k < |s| ==> letter(s[k])
  }

  ghost predicate DomainDirective(line: string) {
    exists d, a :: line == "server=/" + d + "/" + a && Made(d, 1, 253, NameLetter) && Made(a, 2, 45, AddressLetter)
  }

  ghost predicate FallbackDirective(line: string) {
    exists a :: line == "server=" + a && Made(a, 2, 45, AddressLetter)
  }

  lemma FieldsMade(s: string)
    ensures DomainField(s) <==> Made(s, 1, 253, NameLetter)
    ensures AddressField(s) <==> Made(s, 2, 45, AddressLetter)
  {
    assert forall c :: DomainChar(c) == NameLetter(c) && AddressChar(c) == AddressLetter(c);
  }

  lemma CutAt(rest: string, i: nat)
    requires i < |rest| && rest[i] == '/'
    ensures rest == rest[..i] + "/" + rest[i + 1..]
  {
  }

  lemma CutLine(line: string, i: nat)
    requires DOMAIN_PREFIX <= line && i < |line[8..]| && line[8..][i] == '/'
    ensures line == DOMAIN_PREFIX + line[8..][..i] + "/" + line[8..][i + 1..]
  {
    var rest := line[8..];
    assert line == DOMAIN_PREFIX + rest;
    var d, a := rest[..i], rest[i + 1..];
    CutAt(rest, i);
    Associates(DOMAIN_PREFIX, d, "/");
    Associates(DOMAIN_PREFIX, d + "/", a);
  }

  lemma DomainIsDirective(line: string)
    requires AcceptedDomain(line)
    ensures DomainDirective(line)
  {
    var i := Find(line[8..], '/');
    var d, a := line[8..][..i], line[8..][i + 1..];
    hide Made, DomainField, AddressField, Find;
    CutLine(line, i);
    FieldsMade(d);
    FieldsMade(a);
    Directive(d, a);
  }

  lemma Directive(d: string, a: string)
    requires Made(d, 1, 253, NameLetter) && Made(a, 2, 45, AddressLetter)
    ensures DomainDirective(DOMAIN_PREFIX + d + "/" + a)
  {
    hide Made;
  }

  lemma DirectiveIsDomain(line: string)
    requires DomainDirective(line)
    ensures AcceptedDomain(line)
  {
    hide Made, AcceptedDomain;
    var d, a :| line == "server=/" + d + "/" + a && Made(d, 1, 253, NameLetter) && Made(a, 2, 45, AddressLetter);
    FieldsMade(d);
    FieldsMade(a);
    NoSlash(d);
    hide DomainField, AddressField;
    PartsOf(d, a);
  }

  lemma NoSlash(d: string)
    requires DomainField(d)
    ensures Free(d, '/')
  {
  }

  lemma PartsOf(d: string, a: string)
    requires DomainField(d) && AddressField(a) && Free(d, '/')
    ensures AcceptedDomain("server=/" + d + "/" + a)
  {
    hide DomainField, AddressField;
    var rest := d + "/" + a;
    Associates(DOMAIN_PREFIX, d, "/");
    Associates(DOMAIN_PREFIX, d + "/", a);
    assert (DOMAIN_PREFIX + rest)[8..] == rest;
    FindIn(d, '/', a);
    HeadOff(d, '/', a);
  }

  lemma FallbackDirectives(line: string)
    ensures FALLBACK_PREFIX <= line && AddressField(line[7..]) <==> FallbackDirective(line)
  {
    if FALLBACK_PREFIX <= line {
      FieldsMade(line[7..]);
      hide AddressField, Made;
      assert line == "server=" + line[7..];
      if FallbackDirective(line) {
        var a :| line == "server=" + a && Made(a, 2, 45, AddressLetter);
        assert a == line[7..];
      }
    } else {
      hide AddressField, Made;
    }
  }

  /** A line is accepted if it is empty, a comment, or one of the two directives and nothing besides. */
  lemma AcceptedExactly(line: string)
    ensures LineAccepted(line) <==> line == "" || line[0] == '#' || DomainDirective(line) || FallbackDirective(line)
  {
    assert LineAccepted(line) <==>
      line == "" || line[0] == '#' || AcceptedDomain(line) || (FALLBACK_PREFIX <= line && AddressField(line[7..]));
    hide LineAccepted, AcceptedDomain, AddressField, DomainDirective, FallbackDirective;
    if AcceptedDomain(line) { DomainIsDirective(line); }
    if DomainDirective(line) { DirectiveIsDomain(line); }
    FallbackDirectives(line);
  }

  /** `read` delivers the lines that end in a newline. */
  function LinesRead(text: string): seq<string> {
    CutLines(text, '\n').lines
  }

  predicate Accepts(text: string) {
    var lines := LinesRead(text);
    |lines| <= MAX_LINES && forall i :: 0 <= i < |lines| ==> LineAccepted(lines[i])
  }

  method ValidateStaging(text: string) returns (ok: bool)
    ensures ok <==> Accepts(text)
  {
    hide LineAccepted;
    var lines := LinesRead(text);
    var n := 0;
    while n < |lines|
      invariant 0 <= n <= |lines| && n <= MAX_LINES
      invariant forall i :: 0 <= i < n ==> LineAccepted(lines[i])
    {
      var line := lines[n];
      n := n + 1;
      if n > MAX_LINES {
        return false;
      }
      if !LineAccepted(line) {
        return false;
      }
    }
    return true;
  }

  lemma DomainLineAccepted(r: DomainRule)
    requires ValidDomain(r)
    ensures LineAccepted(DomainLine(r))
  {
    DomainReads(r.domain);
    AddressPlain(r.address);
    hide IsAddress, ValidateDomain, LineAccepted;
    PartsOf(r.domain, r.address);
  }

  lemma FallbackLineAccepted(r: FallbackRule)
    requires ValidFallback(r)
    ensures LineAccepted(FallbackLine(r))
  {
    AddressPlain(r.address);
    hide IsAddress;
    assert FallbackLine(r)[7..] == r.address;
  }

  ghost predicate AllAccepted(lines: seq<string>) {
    forall i :: 0 <= i < |lines| ==> LineAccepted(lines[i])
  }

  lemma {:induction false} DomainsAccepted(rules: seq<DomainRule>)
    requires forall i :: 0 <= i < |rules| ==> ValidDomain(rules[i])
    ensures AllAccepted(DomainLines(rules))
  {
    if rules == [] {
    } else {
      DomainsAccepted(rules[..|rules| - 1]);
      DomainLineAccepted(rules[|rules| - 1]);
      hide ValidDomain, LineAccepted, DomainLine;
    }
  }

  lemma {:induction false} FallbacksAccepted(rules: seq<FallbackRule>)
    requires forall i :: 0 <= i < |rules| ==> ValidFallback(rules[i])
    ensures AllAccepted(FallbackLines(rules))
  {
    if rules == [] {
    } else {
      FallbacksAccepted(rules[..|rules| - 1]);
      FallbackLineAccepted(rules[|rules| - 1]);
      hide ValidFallback, LineAccepted, FallbackLine;
    }
  }

  lemma WholeIsFree(lines: seq<string>)
    requires Whole(lines)
    ensures AllFree(lines, '\n')
  {
    forall i | 0 <= i < |lines|
      ensures Free(lines[i], '\n')
    {
      assert forall k :: 0 <= k < |lines[i]| ==> NoBreak(lines[i][k]);
    }
  }

  lemma RenderedLinesAccepted(domains: seq<DomainRule>, fallbacks: seq<FallbackRule>)
    requires AllValid(domains, fallbacks)
    ensures AllAccepted(RenderedLines(domains, fallbacks))
  {
    HeaderLine();
    assert LineAccepted(HEADER) by { hide DomainField, AddressField, HEADER; }
    SortedValid(domains, fallbacks);
    hide LineAccepted, Sort, HEADER, ValidDomain, ValidFallback;
    DomainsAccepted(Sort(domains, ByDomain()));
    FallbacksAccepted(Sort(fallbacks, ByPosition()));
  }

  lemma LinesOfRender(domains: seq<DomainRule>, fallbacks: seq<FallbackRule>)
    requires AllValid(domains, fallbacks)
    ensures LinesRead(Render(domains, fallbacks)) == RenderedLines(domains, fallbacks)
  {
    RenderedLinesRead(domains, fallbacks);
    var lines := RenderedLines(domains, fallbacks);
    hide ParseLines, RenderedLines, Sort, AllValid, CutLines, Joined;
    WholeIsFree(lines);
    CutIsUnique(lines, "", '\n');
    assert Joined(lines, '\n') + "" == Joined(lines, '\n');
  }

  /** The two grammars agree on everything the application writes: only the number of lines can be refused. */
  lemma RenderedIsAccepted(domains: seq<DomainRule>, fallbacks: seq<FallbackRule>)
    requires AllValid(domains, fallbacks)
    ensures Accepts(Render(domains, fallbacks)) <==> |domains| + |fallbacks| <= MAX_LINES - 1
  {
    LinesOfRender(domains, fallbacks);
    RenderedLinesAccepted(domains, fallbacks);
    hide LinesRead, Render, AllValid, LineAccepted;
  }

  // ---- installing ----

  datatype Files = Files(
    staged: Option<string>,
    working: Option<string>,
    live: Option<string>,
    previous: Option<string>,
    legacy: Option<string>,
    retired: Option<string>)

  /** `Broken` is the shell's own end of the script, at a file command that failed. */
  datatype Outcome = Died | NotActive | Applied | Broken

  /** dnsmasq reads the live file and, while it is still there, the one it replaces. */
  predicate TwoVisible(f: Files) {
    f.live.Some? && f.legacy.Some?
  }

  predicate LiveIsOneOf(f: Files, before: Option<string>, staged: Option<string>) {
    f.live == before || f.live == staged
  }

  /** A backup is there only beside a live file. */
  predicate BackupHasLive(f: Files) {
    f.previous.Some? ==> f.live.Some?
  }

  /** There is something to install, and the helper takes it. */
  predicate Staged(f: Files) {
    f.staged.Some? && Accepts(f.staged.value)
  }

  /** At every moment: one of two texts is live, a backup has a live file, and no legacy rules are gone. */
  predicate OnTheWay(before: Files, f: Files) {
    && f.staged == before.staged && LiveIsOneOf(f, before.live, before.staged)
    && (BackupHasLive(before) ==> BackupHasLive(f))
    && (before.legacy.Some? ==> f.legacy == before.legacy || f.retired == before.legacy)
  }

  /** The rules that were live are still live or in the backup. */
  predicate CanGoBack(before: Files, f: Files) {
    before.live.Some? ==> f.live == before.live || f.previous == before.live
  }

  /** The most file commands one run issues. */
  const FILE_COMMANDS := 5

  /** Two copies and a rename, one rename for a legacy file, and one command that settles the backup. */
  function Commands(before: Files): nat {
    3 + (if before.live.Some? then 1 else 0) + (if before.legacy.Some? then 1 else 0)
  }

  function Saved(before: Files): Option<string> {
    if before.live.Some? then before.live else before.previous
  }

  /** With the new file in place and the legacy file out of the way. */
  function Installed(before: Files): Files {
    before.(working := None, live := before.staged, previous := Saved(before), legacy := None,
            retired := if before.legacy.Some? then before.legacy else before.retired)
  }

  /** What a run leaves that ends at its `broken`-th file command: everything before it done, nothing after. */
  function LeftBroken(before: Files, broken: nat, rubbish: Option<string>): Files {
    var backup := if before.live.Some? then 1 else 0;
    if broken == 0 then before.(working := rubbish)
    else if broken <= backup then before.(working := before.staged, previous := rubbish)
    else if broken == 1 + backup then before.(working := before.staged, previous := Saved(before))
    else if broken == 2 + backup && before.legacy.Some? then Installed(before).(legacy := before.legacy, retired := before.retired)
    else Installed(before)
  }

  class Installer {
    var files: Files
    ghost var trail: seq<Files>
    ghost var restarts: seq<Files>

    constructor (files: Files)
      ensures this.files == files && trail == [] && restarts == []
    {
      this.files, trail, restarts := files, [], [];
    }

    method Set(f: Files)
      modifies this
      ensures files == f && trail == old(trail) + [f] && restarts == old(restarts)
    {
      files := f;
      trail := trail + [f];
    }

    method Restart(answer: bool) returns (ok: bool)
      modifies this`restarts
      ensures ok == answer && restarts == old(restarts) + [files]
    {
      restarts := restarts + [files];
      ok := answer;
    }

    /**
     `dns-apply`.  The live file ends as the staged text or as what was live before, and is nothing else at any
     moment; a rejected restart puts the live file back.  The legacy file stays retired then, so the files are as
     they were only where there was none.  The `broken`-th file command fails, if it is reached, which ends the
     script where it stands; a failed copy may leave anything in its target, a failed rename or removal nothing.
     */
    method DnsApply(isActive: bool, restartAnswer: bool, secondAnswer: bool, broken: nat, rubbish: Option<string>)
      returns (outcome: Outcome)
      modifies this
      ensures !Staged(old(files)) ==>
              outcome == Died && files == old(files) && trail == old(trail) && restarts == old(restarts)
      ensures outcome == Broken <==> Staged(old(files)) && broken < Commands(old(files))
      ensures outcome == Broken ==>
              && files == LeftBroken(old(files), broken, rubbish)
              && |restarts| == |old(restarts)| + (if isActive && broken == Commands(old(files)) - 1 then 1 else 0)
      ensures Staged(old(files)) && outcome != Broken ==>
              && outcome == (if !isActive then NotActive else if restartAnswer then Applied else Died)
              && files.live == (if outcome == Died then old(files).live else old(files).staged)
              && files.working == None
              && files.previous == (if outcome == Died && old(files).live == None then old(files).previous else None)
              && files.legacy == None
              && files.retired == (if old(files).legacy.Some? then old(files).legacy else old(files).retired)
              && |restarts| == |old(restarts)| + (if outcome == NotActive then 0 else if outcome == Applied then 1 else 2)
      ensures Staged(old(files)) && outcome == Died ==>
              && (files.live == old(files).live && files.legacy == old(files).legacy <==> old(files).legacy == None)
              && (files.previous == None <==> old(files).live.Some? || old(files).previous == None)
      ensures files.staged == old(files).staged && LiveIsOneOf(files, old(files).live, old(files).staged)
      ensures BackupHasLive(old(files)) ==> BackupHasLive(files)
      ensures old(trail) <= trail && old(restarts) <= restarts
      ensures forall i :: |old(trail)| <= i < |trail| ==> OnTheWay(old(files), trail[i])
      ensures forall i :: |old(trail)| <= i < |trail| - (if outcome == Applied || outcome == NotActive then 1 else 0) ==>
                CanGoBack(old(files), trail[i])
      ensures forall i :: |old(restarts)| <= i < |restarts| ==> !TwoVisible(restarts[i])
    {
      if files.staged.None? {
        return Died;
      }
      var valid := ValidateStaging(files.staged.value);
      if !valid {
        return Died;
      }
      hide Accepts, OnTheWay, CanGoBack;
      ghost var before := files;
      var placed, done, hadPrevious := Place(broken, rubbish);
      if !placed {
        return Broken;
      }
      outcome := Settle(isActive, restartAnswer, secondAnswer, hadPrevious, broken == done, before);
    }

    /** The new file into place, with a copy of what was live beside it and the legacy file out of the way. */
    method Place(broken: nat, rubbish: Option<string>) returns (placed: bool, done: nat, hadPrevious: bool)
      requires files.staged.Some?
      modifies this
      ensures placed <==> broken >= Commands(old(files)) - 1
      ensures files == if placed then Installed(old(files)) else LeftBroken(old(files), broken, rubbish)
      ensures placed ==> done == Commands(old(files)) - 1 && hadPrevious == old(files).live.Some?
      ensures old(trail) <= trail && restarts == old(restarts)
      ensures forall i :: |old(trail)| <= i < |trail| ==> OnTheWay(old(files), trail[i]) && CanGoBack(old(files), trail[i])
    {
      done, hadPrevious := 0, false;
      if broken == done {
        Set(files.(working := rubbish));
        return false, done, hadPrevious;
      }
      Set(files.(working := files.staged));
      done := done + 1;
      if files.live.Some? {
        if broken == done {
          Set(files.(previous := rubbish));
          return false, done, hadPrevious;
        }
        Set(files.(previous := files.live));
        done := done + 1;
        hadPrevious := true;
      }
      if broken == done {
        return false, done, hadPrevious;
      }
      Set(files.(live := files.working, working := None));
      done := done + 1;
      if files.legacy.Some? {
        if broken == done {
          return false, done, hadPrevious;
        }
        Set(files.(retired := files.legacy, legacy := None));
        done := done + 1;
      }
      placed := true;
    }

    /** With the new file in place: restart, and put the old one back if that is refused. */
    method Settle(isActive: bool, restartAnswer: bool, secondAnswer: bool, hadPrevious: bool, fails: bool, ghost before: Files)
      returns (outcome: Outcome)
      requires files == Installed(before) && before.staged.Some? && hadPrevious == before.live.Some?
      modifies this
      ensures outcome == if fails then Broken else if !isActive then NotActive else if restartAnswer then Applied else Died
      ensures files == match outcome {
                         case Broken => old(files)
                         case Died => old(files).(live := before.live, previous := if hadPrevious then None else before.previous)
                         case _ => old(files).(previous := None)
                       }
      ensures old(trail) <= trail && old(restarts) <= restarts
      ensures forall i :: |old(trail)| <= i < |trail| ==> OnTheWay(before, trail[i])
      ensures outcome == Died || outcome == Broken ==>
                forall i :: |old(trail)| <= i < |trail| ==> CanGoBack(before, trail[i])
      ensures outcome == Applied || outcome == NotActive ==> |trail| == |old(trail)| + 1
      ensures forall i :: |old(restarts)| <= i < |restarts| ==> !TwoVisible(restarts[i])
      ensures |restarts| == |old(restarts)| + match outcome {
                                                case Applied => 1
                                                case Died => 2
                                                case NotActive => 0
                                                case Broken => if isActive then 1 else 0
                                              }
    {
      if isActive {
        var accepted := Restart(restartAnswer);
        if !accepted {
          if fails {
            return Broken;
          }
          PutBack(hadPrevious);
          var _ := Restart(secondAnswer);
          return Died;
        }
      }
      if fails {
        return Broken;
      }
      Set(files.(previous := None));
      outcome := if isActive then Applied else NotActive;
    }

    /** Undoes the installation: the backup back in place, or nothing where nothing was. */
    method PutBack(hadPrevious: bool)
      modifies this
      ensures files == if hadPrevious then old(files).(live := old(files).previous, previous := None)
                       else old(files).(live := None)
      ensures trail == old(trail) + [files] && restarts == old(restarts)
    {
      if hadPrevious {
        Set(files.(live := files.previous, previous := None));
      } else {
        Set(files.(live := None));
      }
    }
  }

  /**
   A resolver that refuses the new rules gets its live file back, but the legacy file is no longer where it was: on
   a first install nothing is left of the rules it had.
   */
  method RefusedRestartRetiresLegacy(live: Option<string>) returns (before: Files, after: Files, outcome: Outcome)
    ensures before == Files(Some(""), None, live, None, Some("server=9.9.9.9"), None)
    ensures outcome == Died
    ensures after == before.(legacy := None, retired := before.legacy)
  {
    before := Files(Some(""), None, live, None, Some("server=9.9.9.9"), None);
    assert LinesRead("") == [];
    var installer := new Installer(before);
    outcome := installer.DnsApply(true, false, false, FILE_COMMANDS, None);
    after := installer.files;
  }
}
