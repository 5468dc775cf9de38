/** The login throttle: a failure counter for each client, and a lockout measured from the last failure. */
module Throttle {
  import opened Options

  /** A client's failures: how many, and when the last one was. */
  datatype Entry = Entry(count: int, last: real)

  /** Python's `int` of a float: towards zero. */
  function Truncated(x: real): int {
    if x >= 0.0 then x.Floor else -((-x).Floor)
  }

  function Remaining(e: Option<Entry>, max: int, lockout: int, now: real): int {
    var entry := e.GetOr(Entry(0, 0.0));
    if entry.count < max then 0
    else
      var left := Truncated(lockout as real - (now - entry.last));
      if left <= 0 then 0 else left
  }

  /** Looking also forgets a lockout that has run out. */
  function Looked(e: Option<Entry>, max: int, lockout: int, now: real): Option<Entry> {
    if e.GetOr(Entry(0, 0.0)).count >= max && Remaining(e, max, lockout, now) == 0 then None else e
  }

  function Failed(e: Option<Entry>, now: real): Option<Entry> {
    Some(Entry(e.GetOr(Entry(0, 0.0)).count + 1, now))
  }

  class LoginThrottle {
    const max: int
    const lockout: int
    var failures: map<string, Entry>

    constructor (max: int, lockout: int)
      ensures this.max == max && this.lockout == lockout && failures == map[]
    {
      this.max, this.lockout, failures := max, lockout, map[];
    }

    function Of(key: string): Option<Entry>
      reads this`failures
    {
      if key in failures then Some(failures[key]) else None
    }

    method SecondsRemaining(key: string, now: real) returns (left: int)
      modifies this`failures
      ensures left == Remaining(old(Of(key)), max, lockout, now)
      ensures Of(key) == Looked(old(Of(key)), max, lockout, now)
      ensures forall k: string :: k != key ==> Of(k) == old(Of(k))
    {
      var entry := if key in failures then failures[key] else Entry(0, 0.0);
      if entry.count < max {
        return 0;
      }
      left := Truncated(lockout as real - (now - entry.last));
      if left <= 0 {
        failures := failures - {key};
        return 0;
      }
    }

    method RecordFailure(key: string, now: real)
      modifies this`failures
      ensures Of(key) == Failed(old(Of(key)), now)
      ensures forall k: string :: k != key ==> Of(k) == old(Of(k))
    {
      var count := if key in failures then failures[key].count else 0;
      failures := failures[key := Entry(count + 1, now)];
    }

    method Reset(key: string)
      modifies this`failures
      ensures Of(key) == None
      ensures forall k: string :: k != key ==> Of(k) == old(Of(k))
    {
      failures := failures - {key};
    }
  }

  // ---- sequential logins of one client ----

  /**
   One request: checked at `now`; a wrong password is recorded at `recorded`, not earlier.  An unfinished one has
   no valid token, or a vault that would not open, and counts as neither success nor failure.
   */
  datatype Login = Unfinished(now: real) | Right(now: real) | Wrong(now: real, recorded: real)

  function End(a: Login): real {
    if a.Wrong? then a.recorded else a.now
  }

  /** The client's entry, the failed checks since its last success, and the time of its last request. */
  datatype Client = Client(entry: Option<Entry>, times: seq<real>, clock: real)

  function Next(c: Client, a: Login, max: int, lockout: int): Client {
    var looked := Looked(c.entry, max, lockout, a.now);
    if Remaining(c.entry, max, lockout, a.now) > 0 then c.(entry := looked, clock := a.now)
    else match a
      case Unfinished(now) => Client(looked, c.times, now)
      case Right(now) => Client(None, [], now)
      case Wrong(_, recorded) => Client(Failed(looked, recorded), c.times + [recorded], recorded)
  }

  function Run(c: Client, logins: seq<Login>, max: int, lockout: int): Client {
    if logins == [] then c else Next(Run(c, logins[..|logins| - 1], max, lockout), logins[|logins| - 1], max, lockout)
  }

  /** The clock does not run backwards. */
  ghost predicate InTime(clock: real, logins: seq<Login>) {
    && (logins != [] ==> clock <= logins[0].now)
    && (forall i :: 0 <= i < |logins| ==> logins[i].now <= End(logins[i]))
    && (forall i, j :: 0 <= i < j < |logins| ==> End(logins[i]) <= logins[j].now)
  }

  predicate Apart(earlier: real, later: real, lockout: int) {
    later - earlier > lockout as real - 1.0
  }

  /** How many failures, counted back from the last, follow each other without a pause. */
  function Streak(times: seq<real>, lockout: int): (n: nat)
    ensures n <= |times| && (times != [] ==> n >= 1)
  {
    if |times| <= 1 then |times|
    else if Apart(times[|times| - 2], times[|times| - 1], lockout) then 1
    else 1 + Streak(times[..|times| - 1], lockout)
  }

  /** How many failures in a row the code lets happen; a maximum below 1 does not prevent the first. */
  function Allowed(max: int): (n: nat)
    ensures n >= 1
  {
    if max < 1 then 1 else max
  }

  ghost predicate NeverLong(times: seq<real>, max: int, lockout: int) {
    forall k :: 0 <= k <= |times| ==> Streak(times[..k], lockout) <= Allowed(max)
  }

  ghost predicate Ascending(times: seq<real>) {
    forall i, j :: 0 <= i <= j < |times| ==> times[i] <= times[j]
  }

  ghost predicate Inv(c: Client, max: int, lockout: int) {
    && NeverLong(c.times, max, lockout) && Ascending(c.times)
    && (c.times != [] ==> c.times[|c.times| - 1] <= c.clock)
    && match c.entry
       case Some(e) => e.count >= 1 && c.times != [] && e.last == c.times[|c.times| - 1] && Streak(c.times, lockout) <= e.count
       case None => c.times == [] || Apart(c.times[|c.times| - 1], c.clock, lockout)
  }

  /** A lockout that has run out means a pause. */
  lemma RunOutMeansApart(e: Entry, max: int, lockout: int, now: real)
    requires e.count >= max && Remaining(Some(e), max, lockout, now) == 0 && e.last <= now
    ensures Apart(e.last, now, lockout)
  {
    var x := lockout as real - (now - e.last);
    assert Truncated(x) <= 0;
    assert x >= 0.0 ==> x < x.Floor as real + 1.0;
  }

  lemma NeverLongSnoc(times: seq<real>, t: real, max: int, lockout: int)
    requires NeverLong(times, max, lockout) && Streak(times + [t], lockout) <= Allowed(max)
    ensures NeverLong(times + [t], max, lockout)
  {
    var more := times + [t];
    assert more[..|more|] == more;
    forall k | 0 <= k <= |times|
      ensures more[..k] == times[..k]
    {
    }
  }

  lemma StreakSnoc(times: seq<real>, t: real, lockout: int)
    ensures Streak(times + [t], lockout) ==
            if times == [] || Apart(times[|times| - 1], t, lockout) then 1 else 1 + Streak(times, lockout)
  {
    assert (times + [t])[..|times|] == times;
  }

  lemma LookedKeeps(c: Client, max: int, lockout: int, now: real)
    requires Inv(c, max, lockout) && c.clock <= now
    ensures Inv(c.(entry := Looked(c.entry, max, lockout, now), clock := now), max, lockout)
  {
    if c.entry.Some? && c.entry.value.count >= max && Remaining(c.entry, max, lockout, now) == 0 {
      RunOutMeansApart(c.entry.value, max, lockout, now);
    }
    hide NeverLong, Streak, Truncated, Ascending;
  }

  lemma WrongKeeps(c: Client, max: int, lockout: int, recorded: real)
    requires Inv(c, max, lockout) && c.clock <= recorded && (c.entry.Some? ==> c.entry.value.count < max)
    ensures Inv(Client(Failed(c.entry, recorded), c.times + [recorded], recorded), max, lockout)
  {
    hide NeverLong, Streak;
    StreakSnoc(c.times, recorded, lockout);
    assert Ascending(c.times + [recorded]);
    hide Ascending;
    NeverLongSnoc(c.times, recorded, max, lockout);
  }

  lemma NextKeeps(c: Client, a: Login, max: int, lockout: int)
    requires Inv(c, max, lockout) && c.clock <= a.now <= End(a)
    ensures Inv(Next(c, a, max, lockout), max, lockout) && Next(c, a, max, lockout).clock <= End(a)
  {
    var looked := c.(entry := Looked(c.entry, max, lockout, a.now), clock := a.now);
    LookedKeeps(c, max, lockout, a.now);
    assert Remaining(c.entry, max, lockout, a.now) <= 0 && looked.entry.Some? ==> looked.entry.value.count < max;
    assert NeverLong([], max, lockout);
    hide NeverLong, Streak, Remaining, Looked, Apart, Ascending;
    if a.Wrong? && Remaining(c.entry, max, lockout, a.now) <= 0 {
      WrongKeeps(looked, max, lockout, a.recorded);
    }
  }

  lemma {:induction false} RunKeeps(start: real, logins: seq<Login>, max: int, lockout: int)
    requires InTime(start, logins)
    ensures var c := Run(Client(None, [], start), logins, max, lockout);
            Inv(c, max, lockout) && (c.clock <= if logins == [] then start else End(logins[|logins| - 1]))
  {
    if logins == [] {
    } else {
      RunKeeps(start, logins[..|logins| - 1], max, lockout);
      hide Inv, Next;
      NextKeeps(Run(Client(None, [], start), logins[..|logins| - 1], max, lockout), logins[|logins| - 1], max, lockout);
    }
  }

  /** A stretch without a pause is a streak. */
  lemma {:induction false} StreakCovers(times: seq<real>, from: nat, to: nat, lockout: int)
    requires from < to <= |times|
    requires forall j :: from <= j < to - 1 ==> !Apart(times[j], times[j + 1], lockout)
    ensures Streak(times[..to], lockout) >= to - from
  {
    if from + 1 < to {
      StreakCovers(times, from, to - 1, lockout);
      assert times[..to][..to - 1] == times[..to - 1];
      assert !Apart(times[to - 2], times[to - 1], lockout);
    }
  }

  /**
   Among any max + 1 failed checks of one client with no success in between (two, if the maximum is below 1), two
   neighbours are more than lockout - 1 seconds apart.
   */
  lemma SomePause(start: real, logins: seq<Login>, max: int, lockout: int, i: nat)
    requires InTime(start, logins)
    requires i + Allowed(max) < |Run(Client(None, [], start), logins, max, lockout).times|
    ensures var times := Run(Client(None, [], start), logins, max, lockout).times;
            exists j :: i <= j < i + Allowed(max) && Apart(times[j], times[j + 1], lockout)
  {
    var times := Run(Client(None, [], start), logins, max, lockout).times;
    RunKeeps(start, logins, max, lockout);
    assert NeverLong(times, max, lockout);
    var to := i + Allowed(max) + 1;
    assert Streak(times[..to], lockout) <= Allowed(max);
    hide Run, InTime, Inv, NeverLong, Streak;
    if forall j :: i <= j < to - 1 ==> !Apart(times[j], times[j + 1], lockout) {
      StreakCovers(times, i, to, lockout);
    }
  }

  /** What the limit is for: in no run do more than `max` failures follow each other without a pause. */
  ghost predicate LimitHolds(max: int, lockout: int) {
    forall start, logins :: InTime(start, logins) ==>
      Streak(Run(Client(None, [], start), logins, max, lockout).times, lockout) <= max
  }

  lemma StreakNeverLong(start: real, logins: seq<Login>, max: int, lockout: int)
    requires InTime(start, logins)
    ensures Streak(Run(Client(None, [], start), logins, max, lockout).times, lockout) <= Allowed(max)
  {
    var times := Run(Client(None, [], start), logins, max, lockout).times;
    RunKeeps(start, logins, max, lockout);
    assert NeverLong(times, max, lockout) && times[..|times|] == times;
    hide Run, InTime, Inv;
  }

  /** A time from which on the epoch is too far back to lock anybody out. */
  function Late(lockout: int): real {
    if lockout < 0 then 0.0 else lockout as real
  }

  /** With a maximum below 1 the first failure is still let through, so one more happens than is allowed. */
  lemma FirstFailurePasses(max: int, lockout: int)
    requires max < 1
    ensures var t := Late(lockout);
            InTime(t, [Wrong(t, t)]) && Run(Client(None, [], t), [Wrong(t, t)], max, lockout).times == [t]
  {
    var t := Late(lockout);
    var logins := [Wrong(t, t)];
    assert logins[..0] == [];
    assert Truncated(lockout as real - (t - 0.0)) <= 0;
    assert Run(Client(None, [], t), [], max, lockout) == Client(None, [], t);
  }

  /** So the limit holds on every run if and only if it allows at least one failure. */
  lemma LimitHoldsExactly(max: int, lockout: int)
    ensures LimitHolds(max, lockout) <==> max >= 1
  {
    if max < 1 {
      var t := Late(lockout);
      FirstFailurePasses(max, lockout);
      assert Streak([t], lockout) == 1;
      hide Run, InTime, Streak;
      assert !LimitHolds(max, lockout);
    } else {
      forall start, logins | InTime(start, logins)
        ensures Streak(Run(Client(None, [], start), logins, max, lockout).times, lockout) <= max
      {
        StreakNeverLong(start, logins, max, lockout);
      }
    }
  }

  /** So no stretch of time of lockout - 1 seconds or less holds more failures than that. */
  lemma WindowHoldsFew(start: real, logins: seq<Login>, max: int, lockout: int, i: nat)
    requires InTime(start, logins)
    requires i + Allowed(max) < |Run(Client(None, [], start), logins, max, lockout).times|
    ensures var times := Run(Client(None, [], start), logins, max, lockout).times;
            times[i + Allowed(max)] - times[i] > lockout as real - 1.0
  {
    SomePause(start, logins, max, lockout, i);
    RunKeeps(start, logins, max, lockout);
    var times := Run(Client(None, [], start), logins, max, lockout).times;
    assert Ascending(times);
    hide Run, InTime, Inv;
    var j :| i <= j < i + Allowed(max) && Apart(times[j], times[j + 1], lockout);
    assert times[i] <= times[j] && times[j + 1] <= times[i + Allowed(max)];
  }

  // ---- who is locked out ----

  /** A client is locked out if and only if it has `max` failures and the last is at most lockout - 1 seconds old. */
  lemma LockedExactly(e: Option<Entry>, max: int, lockout: int, now: real)
    ensures var (count, last) := if e == None then (0, 0.0) else (e.value.count, e.value.last);
            var (left, time) := (Remaining(e, max, lockout, now), lockout as real - (now - last));
            && left >= 0
            && (left > 0 <==> count >= max && time >= 1.0)
            && (left > 0 ==> left as real <= time < left as real + 1.0)
  {
  }

  lemma {:induction false} CountedFailures(start: real, logins: seq<Login>, max: int, lockout: int)
    ensures var c := Run(Client(None, [], start), logins, max, lockout);
            c.entry.Some? ==> 1 <= c.entry.value.count <= |c.times|
  {
    if logins == [] {
    } else {
      CountedFailures(start, logins[..|logins| - 1], max, lockout);
      hide Remaining;
    }
  }

  /** Fewer than `max` failed checks since the last success never lock a client out, whenever it asks. */
  lemma FewNeverLock(start: real, logins: seq<Login>, max: int, lockout: int, now: real)
    requires |Run(Client(None, [], start), logins, max, lockout).times| < max
    ensures Remaining(Run(Client(None, [], start), logins, max, lockout).entry, max, lockout, now) == 0
  {
    CountedFailures(start, logins, max, lockout);
    hide Run, Truncated;
  }

  /** And `max` of them without a pause do, until the last is more than lockout - 1 seconds old. */
  lemma EnoughLock(start: real, logins: seq<Login>, max: int, lockout: int, now: real)
    requires InTime(start, logins) && max >= 1
    requires var c := Run(Client(None, [], start), logins, max, lockout);
             && Streak(c.times, lockout) >= max && c.clock <= now
             && now - c.times[|c.times| - 1] <= lockout as real - 1.0
    ensures Remaining(Run(Client(None, [], start), logins, max, lockout).entry, max, lockout, now) > 0
  {
    RunKeeps(start, logins, max, lockout);
    LockedExactly(Run(Client(None, [], start), logins, max, lockout).entry, max, lockout, now);
    hide Run, InTime, NeverLong, Ascending, Truncated, Remaining, Streak;
  }
}
