/**
 The inbound filter's switch: a stored intent, a helper that may answer anything, and the guard in front of every
 connection attempt.
 */
module Firewall {
  import opened Characters
  import opened Options
  import opened DnsGrammar
  import opened Framing

  datatype Status = Armed | Disarmed | Unavailable | Unknown

  // ---- the helper's one-line answer ----

  /** Python's `split()`: the runs of characters that are not blank. */
  function Words(s: string): seq<string> {
    if s == "" then []
    else if IsBlank(s[0]) then Words(s[1..])
    else
      var n := WordEnd(s);
      [s[..n]] + Words(s[n..])
  }

  function WordEnd(s: string): (n: nat)
    requires s != "" && !IsBlank(s[0])
    ensures 1 <= n <= |s| && (forall k :: 0 <= k < n ==> !IsBlank(s[k])) && (n < |s| ==> IsBlank(s[n]))
  {
    if |s| == 1 || IsBlank(s[1]) then 1 else 1 + WordEnd(s[1..])
  }

  predicate IsNumber(s: string) {
    s != "" && forall k :: 0 <= k < |s| ==> IsDigit(s[k])
  }

  function FirstLine(text: string): string {
    var s := Strip(text);
    s[..Find(s, '\n')]
  }

  function Drops(words: seq<string>): int {
    if words == [] then 0
    else Drops(words[..|words| - 1]) + if IsNumber(words[|words| - 1]) then Number(words[|words| - 1]) else 0
  }

  function StatusOf(text: string): Status {
    var words := Words(FirstLine(text));
    if words == [] then Unknown
    else if words[0] == "disarmed" then Disarmed
    else if words[0] == "unavailable" then Unavailable
    else if words[0] == "armed" then Armed
    else Unknown
  }

  method ParseStatus(text: string) returns (status: Status, drops: int)
    ensures status == StatusOf(text)
    ensures drops == if status == Armed then Drops(Words(FirstLine(text))[1..]) else 0
  {
    hide Words, FirstLine, Number, IsNumber;
    var parts := Words(FirstLine(text));
    if parts == [] {
      return Unknown, 0;
    }
    var head := parts[0];
    if head == "disarmed" {
      return Disarmed, 0;
    }
    if head == "unavailable" {
      return Unavailable, 0;
    }
    if head == "armed" {
      var counters := parts[1..];
      var total := 0;
      for i := 0 to |counters|
        invariant total == Drops(counters[..i])
      {
        assert counters[..i + 1][..i] == counters[..i];
        if IsNumber(counters[i]) {
          total := total + Number(counters[i]);
        }
      }
      assert counters[..|counters|] == counters;
      return Armed, total;
    }
    return Unknown, 0;
  }

  /** The line starts with this word. */
  ghost predicate Starts(line: string, word: string) {
    exists rest: string :: line == word + rest && (rest == "" || IsBlank(rest[0]))
  }

  predicate Unbroken(word: string) {
    word != "" && forall k :: 0 <= k < |word| ==> !IsBlank(word[k])
  }

  lemma FirstWord(word: string, rest: string)
    requires Unbroken(word) && (rest == "" || IsBlank(rest[0]))
    ensures Words(word + rest) == [word] + Words(rest)
  {
    var line := word + rest;
    assert line[0] == word[0];
    var n := WordEnd(line);
    assert forall k :: 0 <= k < |word| ==> line[k] == word[k];
    assert rest != "" ==> line[|word|] == rest[0];
    assert line[..n] == word && line[n..] == rest;
  }

  lemma StartsWord(line: string, word: string)
    requires Unbroken(word) && (line == "" || !IsBlank(line[0]))
    ensures Starts(line, word) <==> Words(line) != [] && Words(line)[0] == word
  {
    hide Words, IsBlank;
    if Starts(line, word) {
      var rest: string :| line == word + rest && (rest == "" || IsBlank(rest[0]));
      FirstWord(word, rest);
    }
    WordsHead(line);
    if line != "" && line[..WordEnd(line)] == word {
      assert line == word + line[|word|..];
    }
  }

  lemma WordsHead(line: string)
    requires line == "" || !IsBlank(line[0])
    ensures line == "" ==> Words(line) == []
    ensures line != "" ==> Words(line) != [] && Words(line)[0] == line[..WordEnd(line)]
  {
  }

  lemma {:induction false} LeftUnblank(s: string)
    ensures StripLeft(s) != "" ==> !IsBlank(StripLeft(s)[0])
  {
    if s != "" && IsBlank(s[0]) {
      LeftUnblank(s[1..]);
    }
  }

  lemma {:induction false} RightIsPrefix(s: string)
    ensures StripRight(s) <= s
  {
    if s != "" && IsBlank(s[|s| - 1]) {
      RightIsPrefix(s[..|s| - 1]);
    }
  }

  lemma FirstLineUnblank(text: string)
    ensures FirstLine(text) != "" ==> !IsBlank(FirstLine(text)[0])
  {
    LeftUnblank(text);
    RightIsPrefix(StripLeft(text));
  }

  /** The status is the first word of the answer's first line, if it is one of three. */
  lemma StatusExactly(text: string)
    ensures StatusOf(text) == Armed <==> Starts(FirstLine(text), "armed")
    ensures StatusOf(text) == Disarmed <==> Starts(FirstLine(text), "disarmed")
    ensures StatusOf(text) == Unavailable <==> Starts(FirstLine(text), "unavailable")
  {
    FirstLineUnblank(text);
    hide FirstLine, Starts;
    StartsWord(FirstLine(text), "armed");
    StartsWord(FirstLine(text), "disarmed");
    StartsWord(FirstLine(text), "unavailable");
  }

  lemma {:induction false} DecimalIsNumber(v: nat)
    ensures IsNumber(Decimal(v)) && Number(Decimal(v)) == v && Unbroken(Decimal(v))
  {
    var s := Decimal(v);
    if v < 10 {
      assert s[..0] == "";
    } else {
      DecimalIsNumber(v / 10);
      assert s[..|s| - 1] == Decimal(v / 10);
    }
  }

  lemma WordsOfOne(x: string)
    requires Unbroken(x)
    ensures Words(x) == [x]
  {
    FirstWord(x, "");
    assert x + "" == x;
  }

  lemma WordsBehind(head: string, more: string)
    requires Unbroken(head)
    ensures Words(head + (" " + more)) == [head] + Words(more)
  {
    FirstWord(head, " " + more);
    assert (" " + more)[1..] == more;
  }

  lemma DropsOfTwo(x: string, y: string)
    requires IsNumber(x) && IsNumber(y)
    ensures Drops([x, y]) == Number(x) + Number(y)
  {
    hide IsNumber, Number;
    var one, two := [x], [x, y];
    assert one[..0] == [] && two[..1] == one;
    assert Drops(one) == Number(x);
  }

  lemma WordsOfThree(head: string, x: string, y: string)
    requires Unbroken(head) && Unbroken(x) && Unbroken(y)
    ensures Words(head + (" " + (x + (" " + y)))) == [head, x, y]
  {
    hide *;
    WordsBehind(head, x + (" " + y));
    WordsBehind(x, y);
    WordsOfOne(y);
  }

  /** The two counters the helper prints after `armed` are added up. */
  lemma DropsAddUp(line: string, a: nat, b: nat)
    requires line == "armed" + (" " + (Decimal(a) + (" " + Decimal(b))))
    ensures Words(line) == ["armed", Decimal(a), Decimal(b)] && Drops([Decimal(a), Decimal(b)]) == a + b
  {
    DecimalIsNumber(a);
    DecimalIsNumber(b);
    var armed := "armed";
    assert Unbroken(armed);
    hide *;
    WordsOfThree(armed, Decimal(a), Decimal(b));
    DropsOfTwo(Decimal(a), Decimal(b));
  }

  // ---- state and answers ----

  datatype Answer = Raised | Printed(text: string)

  /** The stored setting, and every verb the helper has been called with. */
  datatype Switch = Switch(setting: string, calls: seq<string>)

  predicate Intended(w: Switch) {
    w.setting == "1"
  }

  datatype Report = Report(status: Status, intended: bool)

  predicate Unprotected(r: Report) {
    r.intended && r.status != Armed
  }

  function Reading(answer: Answer): Status {
    if answer.Raised? then Unknown else StatusOf(answer.text)
  }

  predicate Readable(s: Status) {
    s == Armed || s == Disarmed
  }

  function Called(w: Switch, verb: string): Switch {
    w.(calls := w.calls + [verb])
  }

  /** The helper's answer to the next call, whatever the verb. */
  function Next(w: Switch, oracle: nat -> Answer): Answer {
    oracle(|w.calls|)
  }

  // ---- what each method does ----

  function State(w: Switch, oracle: nat -> Answer): (Switch, Report) {
    (Called(w, "fw-status"), Report(Reading(Next(w, oracle)), Intended(w)))
  }

  /** `None` where the source raises. */
  function SetIntent(w: Switch, on: bool, oracle: nat -> Answer): (Switch, Option<Report>) {
    var (asked, capability) := State(w, oracle);
    if on && !Readable(capability.status) then (asked, None)
    else
      var stored := (if on then asked else w).(setting := if on then "1" else "0");
      var acted := Called(stored, if on then "fw-on" else "fw-off");
      if Next(stored, oracle).Raised? then (acted, Some(Report(Unknown, on)))
      else (State(acted, oracle).0, Some(State(acted, oracle).1))
  }

  function Reconcile(w: Switch, oracle: nat -> Answer): (Switch, Option<Report>) {
    var (asked, current) := State(w, oracle);
    if !Unprotected(current) || !Readable(current.status) then (asked, Some(current))
    else SetIntent(asked, true, oracle)
  }

  function GuardConnect(w: Switch, oracle: nat -> Answer): (Switch, bool) {
    if !Intended(w) then (w, true)
    else
      var (after, report) := Reconcile(w, oracle);
      (after, report.Some? && report.value.status == Armed)
  }

  class FirewallSwitch {
    const oracle: nat -> Answer
    var setting: string
    ghost var calls: seq<string>
    var made: nat

    ghost predicate Valid()
      reads this
    {
      made == |calls|
    }

    ghost function View(): Switch
      reads this
    {
      Switch(setting, calls)
    }

    constructor (oracle: nat -> Answer)
      ensures Valid() && this.oracle == oracle && View() == Switch("0", [])
    {
      this.oracle, setting, calls, made := oracle, "0", [], 0;
    }

    method Helper(verb: string) returns (answer: Answer)
      requires Valid()
      modifies this
      ensures Valid() && View() == Called(old(View()), verb) && answer == Next(old(View()), oracle)
    {
      answer := oracle(made);
      calls := calls + [verb];
      made := made + 1;
    }

    method ReadState() returns (report: Report)
      requires Valid()
      modifies this
      ensures Valid() && (View(), report) == State(old(View()), oracle)
    {
      hide StatusOf;
      var answer := Helper("fw-status");
      if answer.Raised? {
        return Report(Unknown, setting == "1");
      }
      var status, _ := ParseStatus(answer.text);
      report := Report(status, setting == "1");
    }

    method Set(on: bool) returns (report: Option<Report>)
      requires Valid()
      modifies this
      ensures Valid() && (View(), report) == SetIntent(old(View()), on, oracle)
      ensures !on ==> setting == "0" && report.Some? && calls[|old(calls)|] == "fw-off"
      ensures on && report.Some? ==> setting == "1" && calls[|old(calls)|..|old(calls)| + 2] == ["fw-status", "fw-on"]
      ensures report == None ==> setting == old(setting) && calls == old(calls) + ["fw-status"]
    {
      hide StatusOf;
      if on {
        var capability := ReadState();
        if !Readable(capability.status) {
          return None;
        }
      }
      setting := if on then "1" else "0";
      var answer := Helper(if on then "fw-on" else "fw-off");
      if answer.Raised? {
        return Some(Report(Unknown, on));
      }
      var after := ReadState();
      return Some(after);
    }

    method Rearm() returns (report: Option<Report>)
      requires Valid()
      modifies this
      ensures Valid() && (View(), report) == Reconcile(old(View()), oracle)
    {
      hide StatusOf, SetIntent;
      var current := ReadState();
      if !Unprotected(current) || !Readable(current.status) {
        return Some(current);
      }
      report := Set(true);
    }

    method Guard() returns (ok: bool)
      requires Valid()
      modifies this
      ensures Valid() && (View(), ok) == GuardConnect(old(View()), oracle)
    {
      hide Reconcile;
      if setting != "1" {
        return true;
      }
      var report := Rearm();
      ok := report.Some? && report.value.status == Armed;
    }
  }

  // ---- what the guard guarantees ----

  /** The verbs called from one state to a later one. */
  function Since(before: Switch, after: Switch): seq<string>
    requires |before.calls| <= |after.calls|
  {
    after.calls[|before.calls|..]
  }

  /** The verbs a guard calls. */
  lemma GuardCalls(w: Switch, oracle: nat -> Answer) returns (verbs: seq<string>)
    ensures GuardConnect(w, oracle).0.calls == w.calls + verbs
    ensures |verbs| <= 4 && forall k :: 0 <= k < |verbs| ==> verbs[k] in ["fw-status", "fw-on"]
    ensures Intended(GuardConnect(w, oracle).0) == Intended(w)
  {
    hide StatusOf;
    var w' := GuardConnect(w, oracle).0;
    var all := ["fw-status", "fw-status", "fw-on", "fw-status"];
    verbs := all[..|w'.calls| - |w.calls|];
  }

  /** The answer a state's last call received. */
  function LastReading(w: Switch, oracle: nat -> Answer): Status
    requires w.calls != []
  {
    Reading(oracle(|w.calls| - 1))
  }

  /**
   Against any helper: the guard lets a connection through only if protection is switched off, or the last status
   it read said armed; it makes at most four calls, never `fw-off`, and leaves the intent as it is.
   */
  lemma GuardIsSafe(w: Switch, oracle: nat -> Answer)
    ensures var (w', ok) := GuardConnect(w, oracle);
            && |w.calls| <= |w'.calls| <= |w.calls| + 4
            && "fw-off" !in Since(w, w')
            && Intended(w') == Intended(w)
            && (ok ==> !Intended(w) || (w'.calls != [] && w'.calls[|w'.calls| - 1] == "fw-status"
                                        && LastReading(w', oracle) == Armed))
  {
    var verbs := GuardCalls(w, oracle);
    GuardLetsThrough(w, oracle);
    hide GuardConnect;
    assert Since(w, GuardConnect(w, oracle).0) == verbs;
  }

  /** And it does let one through exactly when a status says armed, at once or after one attempt to arm. */
  lemma GuardExactly(w: Switch, oracle: nat -> Answer)
    ensures var n := |w.calls|;
            GuardConnect(w, oracle).1 <==>
              || !Intended(w)
              || Reading(oracle(n)) == Armed
              || (Reading(oracle(n)) == Disarmed && Readable(Reading(oracle(n + 1)))
                  && oracle(n + 2).Printed? && Reading(oracle(n + 3)) == Armed)
  {
    hide StatusOf;
  }

  lemma GuardLetsThrough(w: Switch, oracle: nat -> Answer)
    ensures var (w', ok) := GuardConnect(w, oracle);
            ok && Intended(w) ==> w'.calls != [] && w'.calls[|w'.calls| - 1] == "fw-status" && LastReading(w', oracle) == Armed
  {
    hide StatusOf;
  }

  // ---- the switch ----

  /**
   On is stored, for the first time or again, only after the helper reported armed or disarmed in the same call;
   without that nothing is stored.  Off is always stored.
   */
  lemma OnNeedsReadable(w: Switch, on: bool, oracle: nat -> Answer)
    ensures var ((w', report), readable) := (SetIntent(w, on, oracle), Readable(Reading(oracle(|w.calls|))));
            && (on ==> (report.Some? <==> readable))
            && (on && readable ==> w'.setting == "1")
            && (on && !readable ==> w'.setting == w.setting && w'.calls == w.calls + ["fw-status"])
            && (!on ==> w'.setting == "0" && report.Some?)
  {
    hide StatusOf;
  }

  /** The verbs of a switch: what it may ask first, what it does, and what it asks afterwards unless that raised. */
  function Verbs(on: bool, granted: bool, raised: bool): seq<string> {
    if on && !granted then ["fw-status"]
    else (if on then ["fw-status", "fw-on"] else ["fw-off"]) + if raised then [] else ["fw-status"]
  }

  /**
   Off calls `fw-off`, and on, where the first status is armed or disarmed, calls `fw-on`; then the status is read,
   unless that call raised.  The report gives the last answer, unknown where the call raised, and the new setting.
   */
  lemma SwitchCalls(w: Switch, on: bool, oracle: nat -> Answer)
    ensures var ((w', report), n) := (SetIntent(w, on, oracle), |w.calls|);
            var granted := oracle(n).Printed? && StatusOf(oracle(n).text) in {Armed, Disarmed};
            var acted := oracle(if on then n + 1 else n);
            && w'.calls == w.calls + Verbs(on, granted, acted.Raised?)
            && (report == None <==> on && !granted)
            && (report.Some? ==>
                  && report.value.intended == on && w'.setting == (if on then "1" else "0")
                  && report.value.status ==
                       if acted.Raised? || oracle(|w'.calls| - 1).Raised? then Unknown
                       else StatusOf(oracle(|w'.calls| - 1).text))
  {
    hide StatusOf;
    var n, w' := |w.calls|, SetIntent(w, on, oracle).0;
    var granted := oracle(n).Printed? && StatusOf(oracle(n).text) in {Armed, Disarmed};
    assert granted == Readable(Reading(oracle(n)));
    assert w'.calls == w.calls + Verbs(on, granted, oracle(if on then n + 1 else n).Raised?);
  }

  // ---- runs ----

  datatype Op = SwitchOp(on: bool) | LookOp | ConnectOp

  function Step(w: Switch, op: Op, oracle: nat -> Answer): Switch {
    match op
    case SwitchOp(on) => SetIntent(w, on, oracle).0
    case LookOp => Reconcile(w, oracle).0
    case ConnectOp => GuardConnect(w, oracle).0
  }

  function Run(w: Switch, ops: seq<Op>, oracle: nat -> Answer): Switch {
    if ops == [] then w else Step(Run(w, ops[..|ops| - 1], oracle), ops[|ops| - 1], oracle)
  }

  function Count(calls: seq<string>, verb: string): nat {
    if calls == [] then 0 else Count(calls[..|calls| - 1], verb) + if calls[|calls| - 1] == verb then 1 else 0
  }

  lemma {:induction false} CountAppend(a: seq<string>, b: seq<string>, verb: string)
    ensures Count(a + b, verb) == Count(a, verb) + Count(b, verb)
  {
    if b == [] {
      assert a + b == a;
    } else {
      assert (a + b)[..|a + b| - 1] == a + b[..|b| - 1];
      CountAppend(a, b[..|b| - 1], verb);
    }
  }

  lemma {:induction false} CountNone(calls: seq<string>, verb: string)
    requires verb !in calls
    ensures Count(calls, verb) == 0
  {
    if calls != [] {
      CountNone(calls[..|calls| - 1], verb);
    }
  }

  lemma VerbsOff(on: bool, granted: bool, raised: bool)
    ensures Count(Verbs(on, granted, raised), "fw-off") == if on then 0 else 1
  {
    if on {
      CountNone(Verbs(on, granted, raised), "fw-off");
    } else {
      CountNone(if raised then [] else ["fw-status"], "fw-off");
      CountAppend(["fw-off"], if raised then [] else ["fw-status"], "fw-off");
      assert ["fw-off"][..0] == [];
      assert Count(["fw-off"], "fw-off") == 1;
    }
  }

  /** The verbs that looking calls. */
  lemma LookCalls(w: Switch, oracle: nat -> Answer) returns (verbs: seq<string>)
    ensures Reconcile(w, oracle).0.calls == w.calls + verbs && "fw-off" !in verbs
  {
    hide StatusOf;
    var all := ["fw-status", "fw-status", "fw-on", "fw-status"];
    verbs := all[..|Reconcile(w, oracle).0.calls| - |w.calls|];
  }

  lemma StepOff(w: Switch, op: Op, oracle: nat -> Answer)
    ensures Count(Step(w, op, oracle).calls, "fw-off") == Count(w.calls, "fw-off") + if op == SwitchOp(false) then 1 else 0
  {
    hide SetIntent, Reconcile, GuardConnect, Count, StatusOf;
    match op
    case SwitchOp(on) =>
      SwitchCalls(w, on, oracle);
      var granted := oracle(|w.calls|).Printed? && StatusOf(oracle(|w.calls|).text) in {Armed, Disarmed};
      var raised := oracle(if on then |w.calls| + 1 else |w.calls|).Raised?;
      hide Verbs;
      VerbsOff(on, granted, raised);
      CountAppend(w.calls, Verbs(on, granted, raised), "fw-off");
    case LookOp =>
      var verbs := LookCalls(w, oracle);
      CountNone(verbs, "fw-off");
      CountAppend(w.calls, verbs, "fw-off");
    case ConnectOp =>
      var verbs := GuardCalls(w, oracle);
      CountNone(verbs, "fw-off");
      CountAppend(w.calls, verbs, "fw-off");
  }

  function SwitchOffs(ops: seq<Op>): nat {
    if ops == [] then 0 else SwitchOffs(ops[..|ops| - 1]) + if ops[|ops| - 1] == SwitchOp(false) then 1 else 0
  }

  /** Over every run the helper is told `fw-off` exactly as often as the operator switches off. */
  lemma {:induction false} OffExactly(w: Switch, ops: seq<Op>, oracle: nat -> Answer)
    ensures Count(Run(w, ops, oracle).calls, "fw-off") == Count(w.calls, "fw-off") + SwitchOffs(ops)
  {
    if ops != [] {
      OffExactly(w, ops[..|ops| - 1], oracle);
      hide Step, Count;
      StepOff(Run(w, ops[..|ops| - 1], oracle), ops[|ops| - 1], oracle);
    }
  }

  lemma OnlyTheSwitchSwitches(w: Switch, op: Op, oracle: nat -> Answer)
    ensures Intended(Step(w, op, oracle)) != Intended(w) ==>
            op == SwitchOp(Intended(Step(w, op, oracle))) && (op.on ==> Readable(Reading(oracle(|w.calls|))))
  {
    var _ := GuardCalls(w, oracle);
    hide StatusOf;
  }

  /** Whatever happened before and whatever the helper answers, switching off opens the way at once. */
  lemma AlwaysAWayOut(w: Switch, ops: seq<Op>, oracle: nat -> Answer)
    ensures var off := Step(Run(w, ops, oracle), SwitchOp(false), oracle);
            GuardConnect(off, oracle) == (off, true)
  {
    OnNeedsReadable(Run(w, ops, oracle), false, oracle);
    hide Run, SetIntent;
  }

  /** Over a run that ends with protection switched on from off, some switch-on found the helper readable. */
  lemma {:induction false} OnWasPossible(w: Switch, ops: seq<Op>, oracle: nat -> Answer) returns (i: nat)
    requires !Intended(w) && Intended(Run(w, ops, oracle))
    ensures i < |ops| && ops[i] == SwitchOp(true)
    ensures Readable(Reading(oracle(|Run(w, ops[..i], oracle).calls|)))
  {
    assert ops != [];
    var before := Run(w, ops[..|ops| - 1], oracle);
    OnlyTheSwitchSwitches(before, ops[|ops| - 1], oracle);
    hide Step, Readable, Reading;
    if Intended(before) {
      i := OnWasPossible(w, ops[..|ops| - 1], oracle);
      assert ops[..|ops| - 1][..i] == ops[..i];
    } else {
      i := |ops| - 1;
    }
  }
}
