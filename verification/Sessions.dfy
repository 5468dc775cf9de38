/** Reading attempts back: classifying them, paging through them, adding them up. */
module Sessions {
  import opened Options
  import opened Store
  import Tails

  const MAX_LIMIT := 200
  const REASON_MANUAL := "operator-requested"
  const REASON_SEVERED := "link-lost"

  datatype Kind = LIVE | DROPPED | MANUAL | FAILED | INTERRUPTED | ENDED

  datatype Session = Session(
    id: nat,
    connected: bool,
    kind: Kind,
    outcome: string,
    reason: string,
    duration: int,
    up: Option<int>,
    bytesIn: nat,
    bytesOut: nat)

  function KindOf(live: bool, ended: bool, connected: bool, outcome: string, reason: string): Kind {
    if live then LIVE
    else if reason == REASON_SEVERED then DROPPED
    else if reason == REASON_MANUAL then MANUAL
    else if !ended then INTERRUPTED
    else if outcome == "interrupted" then INTERRUPTED
    else if !connected then FAILED
    else ENDED
  }

  function Elapsed(start: int, end: int): int {
    if end < start then 0 else end - start
  }

  /** `from_row`: an attempt that has not ended is measured up to now. */
  function FromRow(l: Listed, live: bool, now: int): Session {
    var end := l.row.endedAt.GetOr(now);
    Session(l.row.id, l.row.connectedAt.Some?,
            KindOf(live, l.row.endedAt.Some?, l.row.connectedAt.Some?, l.row.outcome, l.row.reason),
            l.row.outcome, l.row.reason,
            Elapsed(l.row.startedAt, end),
            if l.row.connectedAt.Some? then Some(Elapsed(l.row.connectedAt.value, end)) else None,
            l.bytesIn.GetOr(0), l.bytesOut.GetOr(0))
  }

  function FromRows(rows: seq<Listed>, liveId: Option<nat>, now: int): (r: seq<Session>)
    ensures |r| == |rows|
  {
    seq(|rows|, i requires 0 <= i < |rows| => FromRow(rows[i], liveId == Some(rows[i].row.id), now))
  }

  /** What kind of attempt a row is, of the row's own columns. */
  lemma KindExactly(l: Listed, live: bool, now: int)
    ensures var (row, kind) := (l.row, FromRow(l, live, now).kind);
            && (kind == LIVE <==> live)
            && (!live ==>
                  && (kind == DROPPED <==> row.reason == "link-lost")
                  && (kind == MANUAL <==> row.reason == "operator-requested"))
            && (!live && row.reason != "link-lost" && row.reason != "operator-requested" ==>
                  && (kind == INTERRUPTED <==> row.endedAt == None || row.outcome == "interrupted")
                  && (kind == FAILED <==> row.endedAt != None && row.outcome != "interrupted" && row.connectedAt == None)
                  && (kind == ENDED <==> row.endedAt != None && row.outcome != "interrupted" && row.connectedAt != None))
  {
  }

  /** Both spans run from their start to the end, or to now while there is none, and never below 0. */
  lemma SpansExactly(l: Listed, live: bool, now: int)
    ensures var (row, s) := (l.row, FromRow(l, live, now));
            var end := if row.endedAt == None then now else row.endedAt.value;
            && s.duration == (if end <= row.startedAt then 0 else end - row.startedAt)
            && s.up == (if row.connectedAt == None then None
                        else if end <= row.connectedAt.value then Some(0) else Some(end - row.connectedAt.value))
            && s.id == row.id && s.connected == (row.connectedAt != None)
            && s.bytesIn == (if l.bytesIn == None then 0 else l.bytesIn.value)
            && s.bytesOut == (if l.bytesOut == None then 0 else l.bytesOut.value)
  {
  }

  // ---- paging ----

  function Clamp(limit: int): (n: nat)
    ensures 1 <= n <= MAX_LIMIT
  {
    if limit < 1 then 1 else if limit > MAX_LIMIT then MAX_LIMIT else limit
  }

  predicate Unseen(s: Session, before: Option<nat>) {
    before.None? || s.id < before.value
  }

  function Remaining(sessions: seq<Session>, before: Option<nat>): seq<Session> {
    if sessions == [] then []
    else (if Unseen(sessions[0], before) then [sessions[0]] else []) + Remaining(sessions[1..], before)
  }

  /** `page`: one page, newest first, and the cursor for the page after it. */
  function Page(sessions: seq<Session>, before: Option<nat>, limit: int): (seq<Session>, Option<nat>) {
    var remaining := Remaining(sessions, before);
    var n := Clamp(limit);
    if |remaining| <= n then (remaining, None)
    else (remaining[..n], Some(remaining[n - 1].id))
  }

  ghost predicate Descending(sessions: seq<Session>) {
    forall i, j :: 0 <= i < j < |sessions| ==> sessions[i].id > sessions[j].id
  }

  lemma {:induction false} RemainingMembers(sessions: seq<Session>, before: Option<nat>, s: Session)
    ensures s in Remaining(sessions, before) <==> s in sessions && Unseen(s, before)
  {
    if sessions == [] {
    } else {
      RemainingMembers(sessions[1..], before, s);
      assert sessions == [sessions[0]] + sessions[1..];
    }
  }

  lemma {:induction false} RemainingDescends(sessions: seq<Session>, before: Option<nat>)
    requires Descending(sessions)
    ensures Descending(Remaining(sessions, before))
  {
    if sessions == [] {
    } else {
      var rest := Remaining(sessions[1..], before);
      RemainingDescends(sessions[1..], before);
      forall i | 0 <= i < |rest|
        ensures sessions[0].id > rest[i].id
      {
        RemainingMembers(sessions[1..], before, rest[i]);
      }
    }
  }

  /** A cursor handed out always moves strictly down: following cursors must come to an end. */
  lemma CursorDescends(sessions: seq<Session>, before: Option<nat>, limit: int)
    ensures Page(sessions, before, limit).1.Some? ==>
            before.None? || Page(sessions, before, limit).1.value < before.value
  {
    var remaining := Remaining(sessions, before);
    var n := Clamp(limit);
    if |remaining| > n {
      RemainingMembers(sessions, before, remaining[n - 1]);
    }
  }

  /**
   Following the cursors while the history may change between requests: `snap(i)` is what the i-th request finds.
   */
  function Walk(snap: nat -> seq<Session>, i: nat, before: Option<nat>, limit: int): seq<Session>
    decreases before.None?, before.GetOr(0)
  {
    var (window, next) := Page(snap(i), before, limit);
    if next.None? then window
    else
      CursorDescends(snap(i), before, limit);
      window + Walk(snap, i + 1, next, limit)
  }

  lemma {:induction false} RemainingOf(a: seq<Session>, b: seq<Session>, before: Option<nat>)
    ensures Remaining(a + b, before) == Remaining(a, before) + Remaining(b, before)
  {
    hide Unseen;
    if a == [] {
      assert a + b == b;
    } else {
      var kept := if Unseen(a[0], before) then [a[0]] else [];
      assert (a + b)[1..] == a[1..] + b && (a + b)[0] == a[0];
      RemainingOf(a[1..], b, before);
      assert Remaining(a + b, before) == kept + Remaining(a[1..] + b, before);
      assert Remaining(a, before) == kept + Remaining(a[1..], before);
      hide Remaining;
    }
  }

  lemma {:induction false} RemainingTwice(sessions: seq<Session>, before: Option<nat>, id: nat)
    requires before.None? || id <= before.value
    ensures Remaining(Remaining(sessions, before), Some(id)) == Remaining(sessions, Some(id))
  {
    if sessions == [] {
    } else {
      RemainingTwice(sessions[1..], before, id);
      if Unseen(sessions[0], before) {
        RemainingOf([sessions[0]], Remaining(sessions[1..], before), Some(id));
        assert Remaining([sessions[0]], Some(id)) == if Unseen(sessions[0], Some(id)) then [sessions[0]] else [];
        assert Remaining(sessions, before) == [sessions[0]] + Remaining(sessions[1..], before);
      } else {
        assert Remaining(sessions, before) == [] + Remaining(sessions[1..], before) == Remaining(sessions[1..], before);
        assert Remaining(sessions, Some(id)) == [] + Remaining(sessions[1..], Some(id)) == Remaining(sessions[1..], Some(id));
      }
    }
  }

  lemma {:induction false} NoneRemain(sessions: seq<Session>, id: nat)
    requires forall i :: 0 <= i < |sessions| ==> sessions[i].id >= id
    ensures Remaining(sessions, Some(id)) == []
  {
    if sessions != [] {
      NoneRemain(sessions[1..], id);
    }
  }

  lemma {:induction false} AllRemain(sessions: seq<Session>, before: Option<nat>)
    requires forall i :: 0 <= i < |sessions| ==> Unseen(sessions[i], before)
    ensures Remaining(sessions, before) == sessions
  {
    if sessions != [] {
      AllRemain(sessions[1..], before);
      assert sessions == [sessions[0]] + sessions[1..];
    }
  }

  /** In a descending list, what lies below the k-th id is exactly what follows it. */
  lemma BelowIsAfter(r: seq<Session>, k: nat)
    requires Descending(r) && k < |r|
    ensures Remaining(r, Some(r[k].id)) == r[k + 1..]
  {
    var id, a, b := r[k].id, r[..k + 1], r[k + 1..];
    assert r == a + b;
    assert forall i :: 0 <= i < |a| ==> a[i].id >= id;
    assert forall i :: 0 <= i < |b| ==> b[i].id < id;
    hide Remaining, Descending;
    RemainingOf(a, b, Some(id));
    NoneRemain(a, id);
    AllRemain(b, Some(id));
  }

  /** What a cursor leaves for later is exactly what followed the page it ends. */
  lemma RemainingBelow(sessions: seq<Session>, before: Option<nat>, k: nat)
    requires Descending(sessions) && k < |Remaining(sessions, before)|
    ensures Remaining(sessions, Some(Remaining(sessions, before)[k].id)) == Remaining(sessions, before)[k + 1..]
  {
    hide Remaining, Descending;
    var r := Remaining(sessions, before);
    RemainingDescends(sessions, before);
    RemainingMembers(sessions, before, r[k]);
    RemainingTwice(sessions, before, r[k].id);
    BelowIsAfter(r, k);
  }

  lemma {:induction false} WalkRemaining(snap: nat -> seq<Session>, sessions: seq<Session>, i: nat, before: Option<nat>, limit: int)
    requires Descending(sessions) && forall j: nat :: snap(j) == sessions
    ensures Walk(snap, i, before, limit) == Remaining(sessions, before)
    decreases before.None?, before.GetOr(0)
  {
    hide Descending, Remaining, Clamp;
    var remaining := Remaining(sessions, before);
    var n := Clamp(limit);
    assert snap(i) == sessions;
    if |remaining| > n {
      CursorDescends(sessions, before, limit);
      RemainingBelow(sessions, before, n - 1);
      WalkRemaining(snap, sessions, i + 1, Some(remaining[n - 1].id), limit);
      assert remaining == remaining[..n] + remaining[n..];
    }
  }

  /** On an unchanging history the pages, put together, are the whole list: each session once, in order. */
  lemma PagesAreTheList(sessions: seq<Session>, limit: int)
    requires Descending(sessions)
    ensures Walk((i: nat) => sessions, 0, None, limit) == sessions
  {
    WalkRemaining((i: nat) => sessions, sessions, 0, None, limit);
    AllRemain(sessions, None);
  }

  /** Whatever is swept or added between requests, what is shown keeps descending: no session repeats. */
  lemma {:induction false} WalkDescends(snap: nat -> seq<Session>, i: nat, before: Option<nat>, limit: int)
    requires forall j: nat :: Descending(snap(j))
    ensures Descending(Walk(snap, i, before, limit))
    ensures forall s :: s in Walk(snap, i, before, limit) ==> Unseen(s, before)
    decreases before.None?, before.GetOr(0)
  {
    var (window, next) := Page(snap(i), before, limit);
    PageDescends(snap(i), before, limit);
    if next.Some? {
      CursorDescends(snap(i), before, limit);
      hide Page, Descending;
      WalkDescends(snap, i + 1, next, limit);
      Joined(window, Walk(snap, i + 1, next, limit));
    }
  }

  lemma PageDescends(sessions: seq<Session>, before: Option<nat>, limit: int)
    requires Descending(sessions)
    ensures var (window, next) := Page(sessions, before, limit);
            && Descending(window)
            && (forall s :: s in window ==> Unseen(s, before))
            && (next.Some? ==> window != [] && window[|window| - 1].id == next.value)
  {
    RemainingDescends(sessions, before);
    forall s | s in Remaining(sessions, before)
      ensures Unseen(s, before)
    {
      RemainingMembers(sessions, before, s);
    }
  }

  lemma Joined(window: seq<Session>, rest: seq<Session>)
    requires Descending(window) && Descending(rest) && window != []
    requires forall s :: s in rest ==> s.id < window[|window| - 1].id
    ensures Descending(window + rest)
  {
    forall j | 0 <= j < |rest|
      ensures rest[j].id < window[|window| - 1].id
    {
      assert rest[j] in rest;
    }
  }

  ghost predicate Shows(sessions: seq<Session>, id: nat) {
    exists i :: 0 <= i < |sessions| && sessions[i].id == id
  }

  lemma ShowsJoined(a: seq<Session>, b: seq<Session>, id: nat)
    requires Shows(a, id) || Shows(b, id)
    ensures Shows(a + b, id)
  {
    if Shows(a, id) {
      var i :| 0 <= i < |a| && a[i].id == id;
      assert (a + b)[i].id == id;
    } else {
      var i :| 0 <= i < |b| && b[i].id == id;
      assert (a + b)[|a| + i].id == id;
    }
  }

  lemma ShownNowOrLater(sessions: seq<Session>, before: Option<nat>, limit: int, id: nat)
    requires Descending(sessions) && Shows(sessions, id) && (before.None? || id < before.value)
    ensures var (window, next) := Page(sessions, before, limit);
            Shows(window, id) || (next.Some? && id < next.value)
  {
    var remaining := Remaining(sessions, before);
    var n := Clamp(limit);
    var j :| 0 <= j < |sessions| && sessions[j].id == id;
    RemainingMembers(sessions, before, sessions[j]);
    RemainingDescends(sessions, before);
    var k :| 0 <= k < |remaining| && remaining[k] == sessions[j];
    if |remaining| <= n {
      assert remaining[k].id == id;
    } else if k < n {
      assert remaining[..n][k].id == id;
    }
  }

  /** And a session that is there at every request is shown. */
  lemma {:induction false} SurvivorsAreShown(snap: nat -> seq<Session>, i: nat, before: Option<nat>, limit: int, id: nat)
    requires forall j: nat {:trigger snap(j)} :: Descending(snap(j)) && Shows(snap(j), id)
    requires before.None? || id < before.value
    ensures Shows(Walk(snap, i, before, limit), id)
    decreases before.None?, before.GetOr(0)
  {
    var (window, next) := Page(snap(i), before, limit);
    ShownNowOrLater(snap(i), before, limit, id);
    if next.Some? {
      CursorDescends(snap(i), before, limit);
      hide Shows, Page, Descending;
      if Shows(window, id) {
        ShowsJoined(window, Walk(snap, i + 1, next, limit), id);
      } else {
        SurvivorsAreShown(snap, i + 1, next, limit, id);
        ShowsJoined(window, Walk(snap, i + 1, next, limit), id);
      }
    }
  }

  ghost function Below(sessions: seq<Session>, before: Option<nat>): set<nat> {
    set i | 0 <= i < |sessions| && (before == None || sessions[i].id < before.value)
  }

  lemma BelowHead(sessions: seq<Session>, before: Option<nat>)
    requires sessions != []
    ensures |Below(sessions, before)| ==
            |Below(sessions[1..], before)| + if before == None || sessions[0].id < before.value then 1 else 0
  {
    var below, rest := Below(sessions, before), Below(sessions[1..], before);
    var first := if 0 in below then {0} else {};
    assert forall i: nat :: i in rest <==> i + 1 in below - first;
    ShiftedSize(rest, below - first, 1);
  }

  lemma {:induction false} RemainingNumber(sessions: seq<Session>, before: Option<nat>)
    ensures |Remaining(sessions, before)| == |Below(sessions, before)|
  {
    if sessions == [] {
      assert Below(sessions, before) == {};
    } else {
      RemainingNumber(sessions[1..], before);
      BelowHead(sessions, before);
      hide Below;
    }
  }

  /**
   A page holds as many sessions below the cursor as there are, but no more than the limit, which is taken as 1 if it
   is less and as 200 if it is more; and there is a next page if and only if there are more.
   */
  lemma PageLength(sessions: seq<Session>, before: Option<nat>, limit: int)
    ensures var ((window, next), n) := (Page(sessions, before, limit), |Below(sessions, before)|);
            var most := if limit < 1 then 1 else if limit > 200 then 200 else limit;
            |window| == (if n <= most then n else most) && (next.Some? <==> n > most)
  {
    RemainingNumber(sessions, before);
    hide Below, Remaining;
  }

  // ---- the summary ----

  datatype Summary = Summary(sessions: nat, connected: nat, failed: nat, drops: nat, manual: nat)

  function Count(sessions: seq<Session>, p: Session -> bool): (n: nat)
    ensures n <= |sessions|
  {
    if sessions == [] then 0
    else Count(sessions[..|sessions| - 1], p) + if p(sessions[|sessions| - 1]) then 1 else 0
  }

  function Summarise(sessions: seq<Session>): Summary {
    Summary(|sessions|,
            Count(sessions, (s: Session) => s.connected),
            Count(sessions, (s: Session) => s.kind == FAILED),
            Count(sessions, (s: Session) => s.kind == DROPPED),
            Count(sessions, (s: Session) => s.kind == MANUAL))
  }

  /** What the controller guarantees of every row: a reason only on an attempt that came up. */
  ghost predicate ReasonNeedsConnection(row: SessionRow) {
    row.reason != "" ==> row.connectedAt.Some?
  }

  lemma {:induction false} CountDisjoint(sessions: seq<Session>, p: Session -> bool, q: Session -> bool, r: Session -> bool)
    requires forall s :: s in sessions ==> (p(s) ==> r(s)) && (q(s) ==> r(s)) && !(p(s) && q(s))
    ensures Count(sessions, p) + Count(sessions, q) <= Count(sessions, r)
  {
    if sessions == [] {
    } else {
      assert sessions == sessions[..|sessions| - 1] + [sessions[|sessions| - 1]];
      CountDisjoint(sessions[..|sessions| - 1], p, q, r);
    }
  }

  lemma {:induction false} CountEverything(sessions: seq<Session>)
    ensures Count(sessions, (s: Session) => true) == |sessions|
  {
    if sessions == [] {
    } else {
      CountEverything(sessions[..|sessions| - 1]);
    }
  }

  /** Over rows that keep that guarantee the heading's numbers fit together. */
  lemma SummaryAddsUp(rows: seq<Listed>, liveId: Option<nat>, now: int)
    requires forall i :: 0 <= i < |rows| ==> ReasonNeedsConnection(rows[i].row)
    ensures var m := Summarise(FromRows(rows, liveId, now));
            && m.drops + m.manual <= m.connected
            && m.failed + m.connected <= m.sessions
            && m.sessions == |rows|
  {
    var sessions := FromRows(rows, liveId, now);
    forall s | s in sessions
      ensures (s.kind == DROPPED || s.kind == MANUAL ==> s.connected) && (s.kind == FAILED ==> !s.connected)
    {
      var i :| 0 <= i < |sessions| && sessions[i] == s;
      assert ReasonNeedsConnection(rows[i].row);
    }
    CountDisjoint(sessions, (s: Session) => s.kind == DROPPED, (s: Session) => s.kind == MANUAL, (s: Session) => s.connected);
    CountDisjoint(sessions, (s: Session) => s.kind == FAILED, (s: Session) => s.connected, (s: Session) => true);
    CountEverything(sessions);
  }

  lemma {:induction false} CountPlaces(sessions: seq<Session>, p: Session -> bool)
    ensures Count(sessions, p) == |Tails.Places(sessions, p)|
  {
    if sessions == [] {
      assert Tails.Places(sessions, p) == {};
    } else {
      var init, last := sessions[..|sessions| - 1], sessions[|sessions| - 1];
      assert sessions == init + [last];
      CountPlaces(init, p);
      Tails.PlacesSnoc(init, last, p);
      Tails.PlacesBelow(init, p);
      hide Tails.Places;
    }
  }

  ghost function Ended(rows: seq<Listed>, liveId: Option<nat>, reason: string): set<nat> {
    set i | 0 <= i < |rows| && liveId != Some(rows[i].row.id) && rows[i].row.reason == reason
  }

  ghost function CameUp(rows: seq<Listed>): set<nat> {
    set i | 0 <= i < |rows| && rows[i].row.connectedAt != None
  }

  ghost function NeverUp(rows: seq<Listed>, liveId: Option<nat>): set<nat> {
    set i | 0 <= i < |rows| && liveId != Some(rows[i].row.id) && rows[i].row.reason !in {"link-lost", "operator-requested"}
            && rows[i].row.endedAt != None && rows[i].row.outcome != "interrupted" && rows[i].row.connectedAt == None
  }

  /** Each number of the heading counts rows by their own columns. */
  lemma SummaryExactly(rows: seq<Listed>, liveId: Option<nat>, now: int)
    ensures var m := Summarise(FromRows(rows, liveId, now));
            && m.sessions == |rows| && m.connected == |CameUp(rows)|
            && m.failed == |NeverUp(rows, liveId)|
            && m.drops == |Ended(rows, liveId, "link-lost")| && m.manual == |Ended(rows, liveId, "operator-requested")|
  {
    var sessions := FromRows(rows, liveId, now);
    var connected, dropped, manual := (s: Session) => s.connected, (s: Session) => s.kind == DROPPED, (s: Session) => s.kind == MANUAL;
    CountPlaces(sessions, connected);
    CountPlaces(sessions, dropped);
    CountPlaces(sessions, manual);
    var failed := (s: Session) => s.kind == FAILED;
    CountPlaces(sessions, failed);
    forall i | 0 <= i < |rows|
      ensures sessions[i].kind == DROPPED <==> liveId != Some(rows[i].row.id) && rows[i].row.reason == "link-lost"
      ensures sessions[i].kind == MANUAL <==> liveId != Some(rows[i].row.id) && rows[i].row.reason == "operator-requested"
      ensures sessions[i].connected <==> rows[i].row.connectedAt != None
      ensures sessions[i].kind == FAILED <==> i in NeverUp(rows, liveId)
    {
      KindExactly(rows[i], liveId == Some(rows[i].row.id), now);
    }
    hide FromRow;
    assert Tails.Places(sessions, failed) == NeverUp(rows, liveId);
    assert Tails.Places(sessions, connected) == CameUp(rows);
    assert Tails.Places(sessions, dropped) == Ended(rows, liveId, "link-lost");
    assert Tails.Places(sessions, manual) == Ended(rows, liveId, "operator-requested");
  }
}
