/**
 The history tables: attempts, their log lines and byte-counter readings, and the UP/DOWN log.

 A table is the sequence of its rows in rowid order.  Each operation is one transaction that succeeds;
 the clock is a parameter.
 */
module Store {
  import opened Options
  import opened Tails

  const MAX_LINES_PER_SESSION := 2000
  const KEEP_SESSIONS := 200
  const RETENTION_SECONDS := 7 * 86400
  const MAX_SAMPLES_PER_SESSION := 17280

  datatype SessionRow = SessionRow(
    id: nat,
    connection: Option<string>,
    startedAt: int,
    connectedAt: Option<int>,
    endedAt: Option<int>,
    outcome: string,
    reason: string)

  /** A row that goes away with its session (`ON DELETE CASCADE`). */
  datatype Owned<T> = Owned(session: nat, item: T)

  datatype Reading = Reading(at: real, bytesIn: nat, bytesOut: nat)

  datatype Event = Event(kind: string, reason: string)

  datatype Tables = Tables(
    sessions: seq<SessionRow>,
    lines: seq<Owned<string>>,
    samples: seq<Owned<Reading>>,
    events: seq<Event>)

  // ---- rows owned by a session ----

  /** The items of one session, oldest first. */
  function Of<T>(rows: seq<Owned<T>>, session: nat): seq<T> {
    if rows == [] then []
    else
      var row := rows[|rows| - 1];
      Of(rows[..|rows| - 1], session) + if row.session == session then [row.item] else []
  }

  function Rows<T>(session: nat, items: seq<T>): (rows: seq<Owned<T>>)
    ensures |rows| == |items|
  {
    if items == [] then [] else Rows(session, items[..|items| - 1]) + [Owned(session, items[|items| - 1])]
  }

  /** Deletes the first `n` rows of `session`, and no other row. */
  function DropOldest<T>(rows: seq<Owned<T>>, session: nat, n: nat): (r: seq<Owned<T>>)
    ensures |r| <= |rows|
  {
    if n == 0 || rows == [] then rows
    else if rows[0].session == session then DropOldest(rows[1..], session, n - 1)
    else [rows[0]] + DropOldest(rows[1..], session, n)
  }

  /** DELETE the session's rows whose id is not among its `cap` newest. */
  function Trim<T>(rows: seq<Owned<T>>, session: nat, cap: nat): seq<Owned<T>> {
    var n := |Of(rows, session)|;
    DropOldest(rows, session, if n <= cap then 0 else n - cap)
  }

  lemma {:induction false} OfAppend<T>(a: seq<Owned<T>>, b: seq<Owned<T>>, session: nat)
    ensures Of(a + b, session) == Of(a, session) + Of(b, session)
  {
    if b == [] {
      assert a + b == a;
    } else {
      var all := a + b;
      assert all[..|all| - 1] == a + b[..|b| - 1];
      OfAppend(a, b[..|b| - 1], session);
    }
  }

  lemma {:induction false} OfRows<T>(session: nat, items: seq<T>, other: nat)
    ensures Of(Rows(session, items), other) == if other == session then items else []
  {
    if items == [] {
    } else {
      var init := items[..|items| - 1];
      OfRows(session, init, other);
      OfAppend(Rows(session, init), [Owned(session, items[|items| - 1])], other);
      assert items == init + [items[|items| - 1]];
    }
  }

  lemma OfCons<T>(row: Owned<T>, rows: seq<Owned<T>>, session: nat)
    ensures Of([row] + rows, session) == (if row.session == session then [row.item] else []) + Of(rows, session)
  {
    OfAppend([row], rows, session);
  }

  lemma DropPastHead<T>(x: T, s: seq<T>, n: nat)
    requires 0 < n <= |s| + 1
    ensures ([x] + s)[n..] == s[n - 1..]
  {
  }

  lemma DropUnfolds<T>(head: Owned<T>, tail: seq<Owned<T>>, session: nat, n: nat)
    requires n > 0
    ensures DropOldest([head] + tail, session, n)
         == if head.session == session then DropOldest(tail, session, n - 1) else [head] + DropOldest(tail, session, n)
  {
    assert ([head] + tail)[1..] == tail;
  }

  lemma DropNone<T>(rows: seq<Owned<T>>, session: nat)
    ensures DropOldest(rows, session, 0) == rows
  {
  }

  lemma OfNothing<T>(session: nat)
    ensures Of<T>([], session) == []
  {
  }

  lemma {:induction false} OfDropOldest<T>(rows: seq<Owned<T>>, session: nat, n: nat, other: nat)
    requires n <= |Of(rows, session)|
    ensures Of(DropOldest(rows, session, n), other)
         == if other == session then Of(rows, session)[n..] else Of(rows, other)
  {
    DropNone(rows, session);
    OfNothing<T>(session);
    hide Of, DropOldest;
    if n == 0 {
      assert Of(rows, session)[0..] == Of(rows, session);
    } else {
      var head, tail := rows[0], rows[1..];
      assert rows == [head] + tail;
      DropUnfolds(head, tail, session, n);
      OfCons(head, tail, session);
      OfCons(head, tail, other);
      if head.session == session {
        DropPastHead(head.item, Of(tail, session), n);
        OfDropOldest(tail, session, n - 1, other);
      } else {
        OfDropOldest(tail, session, n, other);
        OfCons(head, DropOldest(tail, session, n), other);
      }
    }
  }

  /** Trimming keeps a session's newest rows and touches nobody else's. */
  lemma OfTrim<T>(rows: seq<Owned<T>>, session: nat, cap: nat, other: nat)
    ensures Of(Trim(rows, session, cap), other)
         == if other == session then Last(Of(rows, session), cap) else Of(rows, other)
  {
    var n := |Of(rows, session)|;
    OfDropOldest(rows, session, if n <= cap then 0 else n - cap, other);
  }

  /** Inserting a batch and trimming: the session's log is the newest `cap` of what it was plus the batch. */
  lemma OfInsert<T>(rows: seq<Owned<T>>, session: nat, items: seq<T>, cap: nat, other: nat)
    ensures Of(Trim(rows + Rows(session, items), session, cap), other)
         == if other == session then Last(Of(rows, session) + items, cap) else Of(rows, other)
  {
    OfTrim(rows + Rows(session, items), session, cap, other);
    OfAppend(rows, Rows(session, items), other);
    OfAppend(rows, Rows(session, items), session);
    OfRows(session, items, other);
    OfRows(session, items, session);
  }

  /** The same over the whole stream a session has been sent. */
  lemma InsertExtends<T>(rows: seq<Owned<T>>, session: nat, items: seq<T>, cap: nat, sent: seq<T>)
    requires Of(rows, session) == Last(sent, cap)
    ensures Of(Trim(rows + Rows(session, items), session, cap), session) == Last(sent + items, cap)
  {
    hide Of, Trim, Rows;
    OfInsert(rows, session, items, cap, session);
    TrimThenAppend(sent, items, cap);
  }

  lemma InsertElsewhere<T>(rows: seq<Owned<T>>, session: nat, items: seq<T>, cap: nat, other: nat)
    requires other != session
    ensures Of(Trim(rows + Rows(session, items), session, cap), other) == Of(rows, other)
  {
    hide Of, Trim, Rows;
    OfInsert(rows, session, items, cap, other);
  }

  // ---- sessions ----

  /** SQLite's next rowid without AUTOINCREMENT: one more than the largest id present. */
  function NextId(sessions: seq<SessionRow>): nat {
    if sessions == [] then 1 else sessions[|sessions| - 1].id + 1
  }

  ghost predicate Ascending(sessions: seq<SessionRow>) {
    forall i, j :: 0 <= i < j < |sessions| ==> sessions[i].id < sessions[j].id
  }

  function Ids(sessions: seq<SessionRow>): set<nat> {
    if sessions == [] then {} else Ids(sessions[..|sessions| - 1]) + {sessions[|sessions| - 1].id}
  }

  lemma {:induction false} IdOf(sessions: seq<SessionRow>, i: nat)
    requires i < |sessions|
    ensures sessions[i].id in Ids(sessions)
  {
    if i < |sessions| - 1 {
      IdOf(sessions[..|sessions| - 1], i);
    }
  }

  lemma {:induction false} IdAt(sessions: seq<SessionRow>, k: nat) returns (i: nat)
    requires k in Ids(sessions)
    ensures i < |sessions| && sessions[i].id == k
  {
    var init := sessions[..|sessions| - 1];
    if k in Ids(init) {
      i := IdAt(init, k);
    } else {
      i := |sessions| - 1;
    }
  }

  /** "Inside the window" means ended inside it, or not ended at all. */
  function InWindow(cutoff: int): SessionRow -> bool {
    (r: SessionRow) => r.endedAt.None? || r.endedAt.value >= cutoff
  }

  function Kept(sessions: seq<SessionRow>, cutoff: int, keep: nat): (kept: seq<SessionRow>)
    ensures forall r :: r in kept ==> r in sessions
  {
    Last(Filter(sessions, InWindow(cutoff)), keep)
  }

  function OwnedBy<T>(ids: set<nat>): Owned<T> -> bool {
    (row: Owned<T>) => row.session in ids
  }

  function Swept(t: Tables, cutoff: int, keep: nat): Tables {
    var kept := Kept(t.sessions, cutoff, keep);
    t.(sessions := kept,
       lines := Filter(t.lines, OwnedBy(Ids(kept))),
       samples := Filter(t.samples, OwnedBy(Ids(kept))))
  }

  function Update(sessions: seq<SessionRow>, id: nat, change: SessionRow -> SessionRow): (r: seq<SessionRow>)
    ensures |r| == |sessions|
    ensures forall i :: 0 <= i < |r| ==> r[i] == if sessions[i].id == id then change(sessions[i]) else sessions[i]
  {
    seq(|sessions|, i requires 0 <= i < |sessions| => if sessions[i].id == id then change(sessions[i]) else sessions[i])
  }

  function Closing(outcome: string, reason: string, now: int): SessionRow -> SessionRow {
    (r: SessionRow) => r.(endedAt := Some(now), outcome := outcome, reason := reason)
  }

  function Marking(now: int): SessionRow -> SessionRow {
    (r: SessionRow) => if r.connectedAt.None? then r.(connectedAt := Some(now)) else r
  }

  function Started(t: Tables, connection: Option<string>, now: int): Tables {
    t.(sessions := t.sessions + [SessionRow(NextId(t.sessions), connection, now, None, None, "", "")])
  }

  function Ended(t: Tables, id: nat, outcome: string, reason: string, now: int): Tables {
    t.(sessions := Update(t.sessions, id, Closing(outcome, reason, now)))
  }

  function MarkedConnected(t: Tables, id: nat, now: int): Tables {
    t.(sessions := Update(t.sessions, id, Marking(now)))
  }

  function LinesAppended(t: Tables, id: nat, lines: seq<string>): Tables {
    if lines == [] then t else t.(lines := Trim(t.lines + Rows(id, lines), id, MAX_LINES_PER_SESSION))
  }

  function SampleRecorded(t: Tables, id: nat, reading: Reading): Tables {
    t.(samples := Trim(t.samples + Rows(id, [reading]), id, MAX_SAMPLES_PER_SESSION))
  }

  function EventRecorded(t: Tables, kind: string, reason: string): Tables {
    t.(events := t.events + [Event(kind, reason)])
  }

  // ---- the reader ----

  datatype Listed = Listed(row: SessionRow, lines: nat, bytesIn: Option<nat>, bytesOut: Option<nat>)

  function MaxOf(readings: seq<nat>): (m: Option<nat>)
    ensures m.None? <==> readings == []
    ensures m.Some? ==> m.value in readings && forall x :: x in readings ==> x <= m.value
  {
    if readings == [] then None
    else
      var x := readings[|readings| - 1];
      var m := MaxOf(readings[..|readings| - 1]);
      assert readings == readings[..|readings| - 1] + [x];
      if m.Some? && m.value >= x then m else Some(x)
  }

  function In(readings: seq<Reading>): (r: seq<nat>)
    ensures |r| == |readings| && forall i :: 0 <= i < |r| ==> r[i] == readings[i].bytesIn
  {
    seq(|readings|, i requires 0 <= i < |readings| => readings[i].bytesIn)
  }

  function Out(readings: seq<Reading>): (r: seq<nat>)
    ensures |r| == |readings| && forall i :: 0 <= i < |r| ==> r[i] == readings[i].bytesOut
  {
    seq(|readings|, i requires 0 <= i < |readings| => readings[i].bytesOut)
  }

  function Describe(t: Tables, row: SessionRow): Listed {
    Listed(row, |Of(t.lines, row.id)|, MaxOf(In(Of(t.samples, row.id))), MaxOf(Out(Of(t.samples, row.id))))
  }

  function Reverse<T>(s: seq<T>): (r: seq<T>)
    ensures |r| == |s| && forall i :: 0 <= i < |s| ==> r[i] == s[|s| - 1 - i]
  {
    seq(|s|, i requires 0 <= i < |s| => s[|s| - 1 - i])
  }

  function DescribeAll(t: Tables, rows: seq<SessionRow>): (r: seq<Listed>)
    ensures |r| == |rows|
  {
    seq(|rows|, i requires 0 <= i < |rows| => Describe(t, rows[i]))
  }

  /** `list_sessions`: every attempt inside the window, newest first, with what it moved. */
  function List(t: Tables, cutoff: int, limit: nat): seq<Listed> {
    DescribeAll(t, Reverse(Last(Filter(t.sessions, InWindow(cutoff)), limit)))
  }

  /** The row's own lines are counted, and its counters' highest readings shown. */
  ghost predicate Totalled(t: Tables, l: Listed) {
    && l.lines == |Of(t.lines, l.row.id)|
    && l.bytesIn == MaxOf(In(Of(t.samples, l.row.id))) && l.bytesOut == MaxOf(Out(Of(t.samples, l.row.id)))
  }

  lemma TotalledIsDescribed(t: Tables, l: Listed)
    ensures Totalled(t, l) <==> l == Describe(t, l.row)
  {
    hide Of, MaxOf;
  }

  /** What a reader may rely on: the newest rows of the window, newest first, as many as fit, each as stored. */
  ghost predicate Newest(t: Tables, cutoff: int, limit: nat, r: seq<Listed>) {
    && |r| <= limit
    && (forall i :: 0 <= i < |r| ==>
          r[i].row in t.sessions && (r[i].row.endedAt == None || r[i].row.endedAt.value >= cutoff) && Totalled(t, r[i]))
    && NewestFirst(r)
    && (forall row :: row in t.sessions && (row.endedAt == None || row.endedAt.value >= cutoff) ==>
          Shown(r, row) || (|r| == limit && forall i :: 0 <= i < |r| ==> r[i].row.id > row.id))
  }

  ghost predicate NewestFirst(r: seq<Listed>) {
    forall i, j :: 0 <= i < j < |r| ==> r[i].row.id > r[j].row.id
  }

  ghost predicate Shown(r: seq<Listed>, row: SessionRow) {
    exists i :: 0 <= i < |r| && r[i].row == row
  }

  lemma {:induction false} FilterAscending(sessions: seq<SessionRow>, keep: SessionRow -> bool)
    requires Ascending(sessions)
    ensures Ascending(Filter(sessions, keep))
  {
    if sessions == [] {
    } else {
      var init := sessions[..|sessions| - 1];
      FilterAscending(init, keep);
      forall i | 0 <= i < |Filter(init, keep)|
        ensures Filter(init, keep)[i].id < sessions[|sessions| - 1].id
      {
        assert Filter(init, keep)[i] in init;
      }
    }
  }

  /** One row of the listing is a stored row, with its own lines and totals. */
  lemma ListedIs(t: Tables, cutoff: int, limit: nat, i: nat)
    requires i < |List(t, cutoff, limit)|
    ensures var shown := List(t, cutoff, limit)[i];
            && shown.row in t.sessions && shown.row.id in Ids(t.sessions)
            && (shown.row.endedAt == None || shown.row.endedAt.value >= cutoff) && Totalled(t, shown) && shown == Describe(t, shown.row)
  {
    var inside := Filter(t.sessions, InWindow(cutoff));
    var row := List(t, cutoff, limit)[i].row;
    assert row in inside by { LastSame(inside, limit); assert row in Last(inside, limit); }
    var j :| 0 <= j < |t.sessions| && t.sessions[j] == row;
    IdOf(t.sessions, j);
    TotalledIsDescribed(t, List(t, cutoff, limit)[i]);
    hide Ids, Filter, Of, MaxOf, Totalled;
  }

  lemma ListRow(t: Tables, cutoff: int, limit: nat, i: nat)
    requires i < |List(t, cutoff, limit)|
    ensures var inside := Filter(t.sessions, InWindow(cutoff));
            i < |inside| && List(t, cutoff, limit)[i].row == inside[|inside| - 1 - i]
  {
    hide Filter, Of, MaxOf;
  }

  lemma ListLength(t: Tables, cutoff: int, limit: nat)
    ensures var n := |Filter(t.sessions, InWindow(cutoff))|;
            |List(t, cutoff, limit)| == if n <= limit then n else limit
  {
    hide Filter, Describe;
  }

  lemma NewestShown(t: Tables, cutoff: int, limit: nat, row: SessionRow)
    requires Ascending(t.sessions) && row in t.sessions && InWindow(cutoff)(row)
    ensures var r := List(t, cutoff, limit);
            Shown(r, row) || (|r| == limit && forall i :: 0 <= i < |r| ==> r[i].row.id > row.id)
  {
    var inside, r := Filter(t.sessions, InWindow(cutoff)), List(t, cutoff, limit);
    assert row in inside;
    var j :| 0 <= j < |inside| && inside[j] == row;
    FilterAscending(t.sessions, InWindow(cutoff));
    hide List, Filter;
    ListLength(t, cutoff, limit);
    var k := |inside| - 1 - j;
    if k < |r| {
      ListRow(t, cutoff, limit, k);
      assert r[k].row == row;
    } else {
      hide Shown;
      forall i | 0 <= i < |r|
        ensures r[i].row.id > row.id
      {
        ListRow(t, cutoff, limit, i);
      }
    }
  }

  lemma ListDescends(t: Tables, cutoff: int, limit: nat)
    requires Ascending(t.sessions)
    ensures NewestFirst(List(t, cutoff, limit))
  {
    var r := List(t, cutoff, limit);
    FilterAscending(t.sessions, InWindow(cutoff));
    hide List, Describe, Filter;
    forall i, j | 0 <= i < j < |r|
      ensures r[i].row.id > r[j].row.id
    {
      ListRow(t, cutoff, limit, i);
      ListRow(t, cutoff, limit, j);
    }
  }

  lemma ListIsNewest(t: Tables, cutoff: int, limit: nat)
    requires Ascending(t.sessions)
    ensures Newest(t, cutoff, limit, List(t, cutoff, limit))
  {
    var r := List(t, cutoff, limit);
    ListLength(t, cutoff, limit);
    hide List, Describe, Filter, Shown, Totalled;
    forall i | 0 <= i < |r|
      ensures r[i].row in t.sessions && InWindow(cutoff)(r[i].row) && Totalled(t, r[i])
    {
      ListedIs(t, cutoff, limit, i);
    }
    ListDescends(t, cutoff, limit);
    hide NewestFirst;
    forall row | row in t.sessions && InWindow(cutoff)(row)
      ensures Shown(r, row) || (|r| == limit && forall i :: 0 <= i < |r| ==> r[i].row.id > row.id)
    {
      NewestShown(t, cutoff, limit, row);
    }
  }

  lemma PlacedBelow(r: seq<Listed>, i: nat, j: nat)
    requires NewestFirst(r) && i < |r| && j < |r|
    ensures i < j <==> r[i].row.id > r[j].row.id
  {
    assert i < j ==> r[i].row.id > r[j].row.id;
    assert j < i ==> r[j].row.id > r[i].row.id;
  }

  lemma NotBehind(limit: nat, a: seq<Listed>, b: seq<Listed>, i: nat)
    requires NewestFirst(a) && NewestFirst(b) && |b| <= limit
    requires i <= |a| && i < |b| && a[..i] == b[..i]
    requires Shown(a, b[i].row) || (|a| == limit && forall j :: 0 <= j < |a| ==> a[j].row.id > b[i].row.id)
    ensures i < |a| && a[i].row.id >= b[i].row.id
  {
    hide NewestFirst;
    assert forall x :: 0 <= x < i ==> a[x] == a[..i][x] && a[..i][x] == b[x];
    if Shown(a, b[i].row) {
      var j :| 0 <= j < |a| && a[j].row == b[i].row;
      PlacedBelow(b, if j < i then j else i, i);
      PlacedBelow(a, i, j);
    }
  }

  lemma OrderedIds(sessions: seq<SessionRow>, i: nat, j: nat)
    requires Ascending(sessions) && i < |sessions| && j < |sessions|
    ensures i < j <==> sessions[i].id < sessions[j].id
  {
    assert i < j ==> sessions[i].id < sessions[j].id;
    assert j < i ==> sessions[j].id < sessions[i].id;
  }

  lemma SameId(sessions: seq<SessionRow>, x: SessionRow, y: SessionRow)
    requires Ascending(sessions) && x in sessions && y in sessions && x.id == y.id
    ensures x == y
  {
    var i :| 0 <= i < |sessions| && sessions[i] == x;
    var j :| 0 <= j < |sessions| && sessions[j] == y;
    hide Ascending;
    OrderedIds(sessions, i, j);
    OrderedIds(sessions, j, i);
  }

  lemma AgreeAt(t: Tables, cutoff: int, limit: nat, a: seq<Listed>, b: seq<Listed>, i: nat)
    requires Ascending(t.sessions) && Newest(t, cutoff, limit, a) && Newest(t, cutoff, limit, b)
    requires i <= |a| && i < |b| && a[..i] == b[..i]
    ensures i < |a| && a[i] == b[i]
  {
    hide Ascending, Describe, Totalled, Shown, NewestFirst;
    NotBehind(limit, a, b, i);
    NotBehind(limit, b, a, i);
    TotalledIsDescribed(t, a[i]);
    TotalledIsDescribed(t, b[i]);
    SameId(t.sessions, a[i].row, b[i].row);
  }

  lemma OneLonger<T>(s: seq<T>, n: nat)
    requires n < |s|
    ensures s[..n + 1] == s[..n] + [s[n]]
  {
  }

  lemma {:induction false} NewestAgree(t: Tables, cutoff: int, limit: nat, a: seq<Listed>, b: seq<Listed>, n: nat)
    requires Ascending(t.sessions) && Newest(t, cutoff, limit, a) && Newest(t, cutoff, limit, b) && n <= |b|
    ensures n <= |a| && a[..n] == b[..n]
  {
    if n > 0 {
      hide Newest, Ascending;
      NewestAgree(t, cutoff, limit, a, b, n - 1);
      AgreeAt(t, cutoff, limit, a, b, n - 1);
      OneLonger(a, n - 1);
      OneLonger(b, n - 1);
    }
  }

  /** And there is no other such answer: the listing is exactly that. */
  lemma NewestIsTheList(t: Tables, cutoff: int, limit: nat, r: seq<Listed>)
    requires Ascending(t.sessions)
    ensures Newest(t, cutoff, limit, r) <==> r == List(t, cutoff, limit)
  {
    var l := List(t, cutoff, limit);
    ListIsNewest(t, cutoff, limit);
    if Newest(t, cutoff, limit, r) {
      NewestAgree(t, cutoff, limit, r, l, |l|);
      NewestAgree(t, cutoff, limit, l, r, |r|);
      hide Newest, List, Ascending;
      assert l[..|l|] == l && r[..|r|] == r;
    }
  }

  // ---- the sweep and the reader agree ----

  lemma {:induction false} OfFiltered<T(!new)>(rows: seq<Owned<T>>, ids: set<nat>, session: nat)
    requires session in ids
    ensures Of(Filter(rows, OwnedBy(ids)), session) == Of(rows, session)
  {
    if rows == [] {
    } else {
      OfFiltered(rows[..|rows| - 1], ids, session);
      OfAppend(Filter(rows[..|rows| - 1], OwnedBy(ids)), [rows[|rows| - 1]], session);
    }
  }

  lemma DescribeSwept(t: Tables, cutoff: int, keep: nat, row: SessionRow)
    requires row in Kept(t.sessions, cutoff, keep)
    ensures Describe(Swept(t, cutoff, keep), row) == Describe(t, row)
  {
    var kept := Kept(t.sessions, cutoff, keep);
    var ids := Ids(kept);
    var i :| 0 <= i < |kept| && kept[i] == row;
    IdOf(kept, i);
    OfFiltered(t.lines, ids, row.id);
    OfFiltered(t.samples, ids, row.id);
  }

  lemma DescribeAllSwept(t: Tables, cutoff: int, keep: nat, rows: seq<SessionRow>)
    requires forall r :: r in rows ==> r in Kept(t.sessions, cutoff, keep)
    ensures DescribeAll(Swept(t, cutoff, keep), rows) == DescribeAll(t, rows)
  {
    hide Describe, Swept, Kept;
    forall i | 0 <= i < |rows|
      ensures Describe(Swept(t, cutoff, keep), rows[i]) == Describe(t, rows[i])
    {
      assert rows[i] in rows;
      DescribeSwept(t, cutoff, keep, rows[i]);
    }
  }

  lemma ReverseSame<T(!new)>(s: seq<T>)
    ensures forall x :: x in Reverse(s) <==> x in s
  {
    var r := Reverse(s);
    forall x | x in s
      ensures x in r
    {
      var i :| 0 <= i < |s| && s[i] == x;
      assert r[|s| - 1 - i] == x;
    }
  }

  lemma LastSame<T(!new)>(s: seq<T>, n: nat)
    ensures forall x :: x in Last(s, n) ==> x in s
  {
  }

  /** At the same cutoff, a reader asking for no more than the sweep keeps cannot tell whether it ran. */
  lemma SweepIsInvisible(t: Tables, cutoff: int, keep: nat, limit: nat)
    requires limit <= keep
    ensures List(Swept(t, cutoff, keep), cutoff, limit) == List(t, cutoff, limit)
  {
    var inside, kept := Filter(t.sessions, InWindow(cutoff)), Kept(t.sessions, cutoff, keep);
    LastSame(inside, keep);
    FilterAll(kept, InWindow(cutoff));
    assert kept == Last(inside, keep);
    assert Swept(t, cutoff, keep).sessions == kept;
    hide Kept, Swept, Filter, Last, Reverse, DescribeAll;
    LastOfLast(inside, limit, keep);
    LastSame(kept, limit);
    ReverseSame(Last(kept, limit));
    DescribeAllSwept(t, cutoff, keep, Reverse(Last(inside, limit)));
  }

  /** While the backstop does not bind, no later reader sees a difference either. */
  lemma SweepIsInvisibleLater(t: Tables, cutoff: int, keep: nat, later: int, limit: nat)
    requires cutoff <= later
    requires |Filter(t.sessions, InWindow(cutoff))| <= keep
    ensures List(Swept(t, cutoff, keep), later, limit) == List(t, later, limit)
  {
    var kept := Kept(t.sessions, cutoff, keep);
    FilterTwice(t.sessions, InWindow(cutoff), InWindow(later));
    assert kept == Filter(t.sessions, InWindow(cutoff));
    assert Swept(t, cutoff, keep).sessions == kept;
    var shown := Filter(t.sessions, InWindow(later));
    assert forall r :: r in shown ==> r in kept;
    hide Kept, Swept, Filter, Last, Reverse, DescribeAll;
    LastSame(shown, limit);
    ReverseSame(Last(shown, limit));
    DescribeAllSwept(t, cutoff, keep, Reverse(Last(shown, limit)));
  }

  /** Exactly when the sweep cannot be seen at its own cutoff. */
  lemma SweepInvisibleExactly(t: Tables, cutoff: int, keep: nat, limit: nat)
    ensures List(Swept(t, cutoff, keep), cutoff, limit) == List(t, cutoff, limit)
       <==> limit <= keep || |Filter(t.sessions, InWindow(cutoff))| <= keep
  {
    if limit <= keep {
      SweepIsInvisible(t, cutoff, keep, limit);
    } else if |Filter(t.sessions, InWindow(cutoff))| <= keep {
      SweepIsInvisibleLater(t, cutoff, keep, cutoff, limit);
    } else {
      FilterAll(Kept(t.sessions, cutoff, keep), InWindow(cutoff));
      assert |List(t, cutoff, limit)| > keep;
      assert |List(Swept(t, cutoff, keep), cutoff, limit)| <= keep;
    }
  }

  lemma SweepIsIdempotent(t: Tables, cutoff: int, keep: nat)
    ensures Swept(Swept(t, cutoff, keep), cutoff, keep) == Swept(t, cutoff, keep)
  {
    var kept := Kept(t.sessions, cutoff, keep);
    FilterAll(kept, InWindow(cutoff));
    FilterAll(Filter(t.lines, OwnedBy(Ids(kept))), OwnedBy(Ids(kept)));
    FilterAll(Filter(t.samples, OwnedBy(Ids(kept))), OwnedBy(Ids(kept)));
  }

  /** An open session that is the newest is never swept, so the largest id stays in the table. */
  lemma NewestSurvives(sessions: seq<SessionRow>, cutoff: int, keep: nat)
    requires sessions != [] && sessions[|sessions| - 1].endedAt.None? && keep >= 1
    ensures var kept := Kept(sessions, cutoff, keep);
            kept != [] && kept[|kept| - 1] == sessions[|sessions| - 1]
  {
  }

  // ---- which rows stay, of their own fields ----

  /** The rows stored after row `i` that have not ended or ended at the cutoff or later. */
  ghost function NewerInside(sessions: seq<SessionRow>, i: nat, cutoff: int): set<nat> {
    set j | i < j < |sessions| && (sessions[j].endedAt == None || sessions[j].endedAt.value >= cutoff)
  }

  /** Row `i` has not ended or ended at the cutoff or later, and fewer than `most` newer rows did so too. */
  ghost predicate Stays(sessions: seq<SessionRow>, i: nat, cutoff: int, most: nat)
    requires i < |sessions|
  {
    && (sessions[i].endedAt == None || sessions[i].endedAt.value >= cutoff)
    && |NewerInside(sessions, i, cutoff)| < most
  }

  lemma {:induction false} ShiftedSize(a: set<nat>, b: set<nat>, shift: nat)
    requires forall x: nat :: x in a <==> x + shift in b
    requires forall y :: y in b ==> y >= shift
    ensures |a| == |b|
  {
    if y :| y in b {
      assert (y - shift) + shift in b;
      ShiftedSize(a - {y - shift}, b - {y}, shift);
    } else {
      assert b == {};
      assert forall x :: x in a ==> x + shift in b;
      assert a == {};
    }
  }

  lemma NewerPlaces(sessions: seq<SessionRow>, i: nat, cutoff: int)
    requires i < |sessions|
    ensures |Places(sessions[i + 1..], InWindow(cutoff))| == |NewerInside(sessions, i, cutoff)|
  {
    ShiftedSize(Places(sessions[i + 1..], InWindow(cutoff)), NewerInside(sessions, i, cutoff), i + 1);
  }

  lemma AmongNewest(sessions: seq<SessionRow>, cutoff: int, most: nat, i: nat)
    requires Ascending(sessions) && i < |sessions|
    ensures sessions[i] in Last(Filter(sessions, InWindow(cutoff)), most) <==> Stays(sessions, i, cutoff, most)
  {
    forall j | 0 <= j < |sessions| && j != i
      ensures sessions[j] != sessions[i]
    {
      OrderedIds(sessions, if i < j then i else j, if i < j then j else i);
    }
    NewerPlaces(sessions, i, cutoff);
    LastKept(sessions, InWindow(cutoff), most, i);
    hide Ascending, Filter, Places, NewerInside, Last;
  }

  lemma {:induction false} SizeBetween(s: set<nat>, low: nat, n: nat)
    requires low <= n && forall x :: x in s ==> low <= x < n
    ensures |s| <= n - low
  {
    if n == low {
      assert s == {};
    } else {
      SizeBetween(s - {n - 1}, low, n - 1);
    }
  }

  lemma FewNewer(sessions: seq<SessionRow>, i: nat, cutoff: int)
    requires i < |sessions|
    ensures |NewerInside(sessions, i, cutoff)| < |sessions|
  {
    SizeBetween(NewerInside(sessions, i, cutoff), i + 1, |sessions|);
  }

  /**
   The sweep keeps a row if and only if it has not ended or ended at the cutoff or later, wherever it started, and it
   is among the newest `keep` of those; with no more rows than that, age alone decides.  It adds and changes none.
   */
  lemma SurvivesExactly(t: Tables, cutoff: int, keep: nat, i: nat)
    requires Ascending(t.sessions) && i < |t.sessions|
    ensures t.sessions[i] in Swept(t, cutoff, keep).sessions <==> Stays(t.sessions, i, cutoff, keep)
    ensures |t.sessions| <= keep ==>
              (t.sessions[i] in Swept(t, cutoff, keep).sessions <==>
               t.sessions[i].endedAt == None || t.sessions[i].endedAt.value >= cutoff)
    ensures forall row :: row in Swept(t, cutoff, keep).sessions ==> row in t.sessions
  {
    AmongNewest(t.sessions, cutoff, keep, i);
    FewNewer(t.sessions, i, cutoff);
    assert Swept(t, cutoff, keep).sessions == Last(Filter(t.sessions, InWindow(cutoff)), keep);
    LastSame(Filter(t.sessions, InWindow(cutoff)), keep);
    hide Ascending, Filter, Last, Swept, NewerInside;
  }

  /** And a reader is shown a row under the same condition, with its own limit. */
  lemma ListedExactly(t: Tables, cutoff: int, limit: nat, i: nat)
    requires Ascending(t.sessions) && i < |t.sessions|
    ensures Shown(List(t, cutoff, limit), t.sessions[i]) <==> Stays(t.sessions, i, cutoff, limit)
  {
    AmongNewest(t.sessions, cutoff, limit, i);
    var newest, r := Last(Filter(t.sessions, InWindow(cutoff)), limit), List(t, cutoff, limit);
    assert |r| == |newest| && forall k :: 0 <= k < |r| ==> r[k].row == newest[|newest| - 1 - k];
    hide List, Filter, Last, Stays, Ascending, Describe;
    if t.sessions[i] in newest {
      var k :| 0 <= k < |newest| && newest[k] == t.sessions[i];
      assert r[|newest| - 1 - k].row == t.sessions[i];
    }
  }

  lemma {:induction false} OfFilteredOut<T(!new)>(rows: seq<Owned<T>>, ids: set<nat>, session: nat)
    requires session !in ids
    ensures Of(Filter(rows, OwnedBy(ids)), session) == []
  {
    if rows == [] {
    } else {
      OfFilteredOut(rows[..|rows| - 1], ids, session);
      OfAppend(Filter(rows[..|rows| - 1], OwnedBy(ids)), [rows[|rows| - 1]], session);
    }
  }

  /** What belongs to a row that stays is all kept, and nothing else is. */
  lemma OwnedExactly(t: Tables, cutoff: int, keep: nat, session: nat)
    ensures var t' := Swept(t, cutoff, keep);
            if exists i :: 0 <= i < |t'.sessions| && t'.sessions[i].id == session
            then Of(t'.lines, session) == Of(t.lines, session) && Of(t'.samples, session) == Of(t.samples, session)
            else Of(t'.lines, session) == [] && Of(t'.samples, session) == []
  {
    var kept := Kept(t.sessions, cutoff, keep);
    if i :| 0 <= i < |kept| && kept[i].id == session {
      IdOf(kept, i);
      OfFiltered(t.lines, Ids(kept), session);
      OfFiltered(t.samples, Ids(kept), session);
    } else {
      if session in Ids(kept) {
        var i := IdAt(kept, session);
      }
      OfFilteredOut(t.lines, Ids(kept), session);
      OfFilteredOut(t.samples, Ids(kept), session);
    }
  }

  // ---- byte totals ----

  ghost predicate NonDecreasing(counters: seq<nat>) {
    forall i, j :: 0 <= i < j < |counters| ==> counters[i] <= counters[j]
  }

  /** For a counter that never goes back, the reported maximum is the last reading even after trimming. */
  lemma TotalIsLastReading(counters: seq<nat>, cap: nat)
    requires NonDecreasing(counters) && counters != [] && cap >= 1
    ensures MaxOf(Last(counters, cap)) == Some(counters[|counters| - 1])
  {
    var kept := Last(counters, cap);
    assert kept[|kept| - 1] == counters[|counters| - 1];
    assert counters[|counters| - 1] in kept;
  }

  // ---- the connection to the database ----

  class Database {
    var sessions: seq<SessionRow>
    var lines: seq<Owned<string>>
    var samples: seq<Owned<Reading>>
    var events: seq<Event>

    ghost function View(): Tables
      reads this
    {
      Tables(sessions, lines, samples, events)
    }

    constructor ()
      ensures View() == Tables([], [], [], [])
    {
      sessions, lines, samples, events := [], [], [], [];
    }

    method StartSession(connection: Option<string>, now: int) returns (id: nat)
      modifies this
      ensures View() == Started(old(View()), connection, now)
      ensures id == NextId(old(sessions))
    {
      id := NextId(sessions);
      sessions := sessions + [SessionRow(id, connection, now, None, None, "", "")];
    }

    method AppendLines(id: nat, batch: seq<string>)
      modifies this
      ensures View() == LinesAppended(old(View()), id, batch)
    {
      if batch == [] {
        return;
      }
      var i := 0;
      while i < |batch|
        modifies `lines
        invariant 0 <= i <= |batch|
        invariant lines == old(lines) + Rows(id, batch[..i])
      {
        lines := lines + [Owned(id, batch[i])];
        assert batch[..i + 1][..i] == batch[..i];
        assert Rows(id, batch[..i + 1]) == Rows(id, batch[..i]) + [Owned(id, batch[i])];
        i := i + 1;
      }
      assert batch[..i] == batch;
      lines := Trim(lines, id, MAX_LINES_PER_SESSION);
    }

    method EndSession(id: nat, outcome: string, reason: string, now: int)
      modifies this
      ensures View() == Ended(old(View()), id, outcome, reason, now)
    {
      sessions := Update(sessions, id, Closing(outcome, reason, now));
    }

    method MarkSessionConnected(id: nat, now: int)
      modifies this
      ensures View() == MarkedConnected(old(View()), id, now)
    {
      sessions := Update(sessions, id, Marking(now));
    }

    method RecordSample(id: nat, reading: Reading)
      modifies this
      ensures View() == SampleRecorded(old(View()), id, reading)
    {
      samples := samples + [Owned(id, reading)];
      assert [reading][..0] == [];
      assert Rows(id, [reading]) == [Owned(id, reading)];
      samples := Trim(samples, id, MAX_SAMPLES_PER_SESSION);
    }

    method RecordEvent(kind: string, reason: string)
      modifies this
      ensures View() == EventRecorded(old(View()), kind, reason)
    {
      events := events + [Event(kind, reason)];
    }

    /** Two DELETEs: out of the window first, then beyond the newest `keep`; the rest cascades. */
    method PruneSessions(cutoff: int, keep: nat) returns (deleted: nat)
      modifies this
      ensures View() == Swept(old(View()), cutoff, keep)
      ensures Ascending(old(sessions)) ==>
              forall i :: 0 <= i < |old(sessions)| ==> (old(sessions)[i] in sessions <==> Stays(old(sessions), i, cutoff, keep))
      ensures deleted == |old(sessions)| - |sessions|
    {
      ghost var t := View();
      var before := |sessions|;
      sessions := Filter(sessions, InWindow(cutoff));
      sessions := Last(sessions, keep);
      lines := Filter(lines, OwnedBy(Ids(sessions)));
      samples := Filter(samples, OwnedBy(Ids(sessions)));
      deleted := before - |sessions|;
      hide Ascending, Stays;
      assert sessions == Swept(t, cutoff, keep).sessions;
      if Ascending(t.sessions) {
        forall i | 0 <= i < |t.sessions|
          ensures t.sessions[i] in sessions <==> Stays(t.sessions, i, cutoff, keep)
        {
          SurvivesExactly(t, cutoff, keep, i);
        }
      }
    }

    method ListSessions(cutoff: int, limit: nat) returns (r: seq<Listed>)
      ensures r == List(View(), cutoff, limit)
      ensures Ascending(sessions) ==> Newest(View(), cutoff, limit, r)
    {
      r := List(Tables(sessions, lines, samples, events), cutoff, limit);
      hide List, Newest, Ascending;
      if Ascending(View().sessions) {
        ListIsNewest(View(), cutoff, limit);
      }
    }
  }
}
