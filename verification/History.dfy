/**
 The recorder of attempts: a write buffer for log lines in front of the capped tables.
 Each method is taken as one step, and storage succeeds.
 */
module HistoryLog {
  import opened Options
  import opened Tails
  import opened Store

  const FLUSH_AT := 50

  datatype Recorder = Recorder(session: Option<nat>, pending: seq<string>, tables: Tables)

  // ---- what each method does to the recorder ----

  function Flush(h: Recorder): Recorder {
    if h.session.None? || h.pending == [] then h.(pending := [])
    else h.(pending := [], tables := LinesAppended(h.tables, h.session.value, h.pending))
  }

  function Append(h: Recorder, line: string): Recorder {
    if h.session.None? then h
    else
      var buffered := h.(pending := h.pending + [line]);
      if |buffered.pending| < FLUSH_AT then buffered else Flush(buffered)
  }

  function End(h: Recorder, outcome: string, reason: string, now: int): Recorder {
    var f := Flush(h);
    if f.session.None? then f
    else f.(session := None, tables := Ended(f.tables, f.session.value, outcome, reason, now))
  }

  function Start(h: Recorder, connection: Option<string>, now: int): Recorder {
    var closed := End(h, "interrupted", "", now).tables;
    Recorder(Some(NextId(closed.sessions)), [],
             Swept(Started(closed, connection, now), now - RETENTION_SECONDS, KEEP_SESSIONS))
  }

  function MarkConnected(h: Recorder, now: int): Recorder {
    if h.session.None? then h else h.(tables := MarkedConnected(h.tables, h.session.value, now))
  }

  function Sample(h: Recorder, reading: Reading): Recorder {
    if h.session.None? then h else h.(tables := SampleRecorded(h.tables, h.session.value, reading))
  }

  function Record(h: Recorder, kind: string, reason: string): Recorder {
    h.(tables := EventRecorded(h.tables, kind, reason))
  }

  // ---- the class ----

  class History {
    const db: Database
    var sessionId: Option<nat>
    var pending: seq<string>

    ghost function View(): Recorder
      reads this, db
    {
      Recorder(sessionId, pending, db.View())
    }

    constructor (db: Database)
      ensures this.db == db && View() == Recorder(None, [], db.View())
    {
      this.db := db;
      sessionId, pending := None, [];
    }

    method RecordEvent(kind: string, reason: string)
      modifies db
      ensures View() == Record(old(View()), kind, reason)
    {
      db.RecordEvent(kind, reason);
    }

    method StartSession(connection: Option<string>, now: int)
      modifies this, db
      ensures View() == Start(old(View()), connection, now)
    {
      EndSession("interrupted", "", now);
      var id := db.StartSession(connection, now);
      sessionId, pending := Some(id), [];
      var _ := db.PruneSessions(now - RETENTION_SECONDS, KEEP_SESSIONS);
    }

    method AppendLine(line: string)
      modifies this, db
      ensures View() == Append(old(View()), line)
    {
      if sessionId.None? {
        return;
      }
      pending := pending + [line];
      if |pending| < FLUSH_AT {
        return;
      }
      FlushLines();
    }

    method FlushLines()
      modifies this, db
      ensures View() == Flush(old(View()))
    {
      var batch := pending;
      pending := [];
      if sessionId.None? || batch == [] {
        return;
      }
      db.AppendLines(sessionId.value, batch);
    }

    method MarkSessionConnected(now: int)
      modifies db
      ensures View() == MarkConnected(old(View()), now)
    {
      if sessionId.None? {
        return;
      }
      db.MarkSessionConnected(sessionId.value, now);
    }

    method EndSession(outcome: string, reason: string, now: int)
      modifies this, db
      ensures View() == End(old(View()), outcome, reason, now)
    {
      FlushLines();
      var session := sessionId;
      sessionId := None;
      if session.None? {
        return;
      }
      db.EndSession(session.value, outcome, reason, now);
    }

    method RecordSample(reading: Reading)
      modifies db
      ensures View() == Sample(old(View()), reading)
    {
      if sessionId.None? {
        return;
      }
      db.RecordSample(sessionId.value, reading);
    }
  }

  // ---- runs ----

  datatype Op =
    | StartOp(connection: Option<string>, now: int)
    | AppendOp(line: string)
    | FlushOp
    | MarkOp(now: int)
    | EndOp(outcome: string, reason: string, endedAt: int)
    | SampleOp(reading: Reading)
    | EventOp(kind: string, why: string)
    /** The process ends, at any point, and another one opens the same database. */
    | RestartOp

  function Step(h: Recorder, op: Op): Recorder {
    match op
    case StartOp(connection, now) => Start(h, connection, now)
    case AppendOp(line) => Append(h, line)
    case FlushOp => Flush(h)
    case MarkOp(now) => MarkConnected(h, now)
    case EndOp(outcome, reason, now) => End(h, outcome, reason, now)
    case SampleOp(reading) => Sample(h, reading)
    case EventOp(kind, why) => Record(h, kind, why)
    case RestartOp => Fresh(h.tables)
  }

  /**
   What an onlooker notes about the session `k` (any number, chosen beforehand): every line and reading sent
   while it was the current one, but for lines a restart lost from the buffer; and, of all sessions, the ids
   issued, those of the first database included, and the ids closed.
   */
  datatype Notes = Notes(stream: seq<string>, readings: seq<Reading>, issued: seq<nat>, closed: seq<nat>)

  function Note(k: nat, h: Recorder, n: Notes, op: Op): Notes {
    match op
    case StartOp(_, _) =>
      n.(issued := n.issued + [NextId(h.tables.sessions)],
         closed := if h.session.Some? then n.closed + [h.session.value] else n.closed)
    case AppendOp(line) => if h.session == Some(k) then n.(stream := n.stream + [line]) else n
    case EndOp(_, _, _) => if h.session.Some? then n.(closed := n.closed + [h.session.value]) else n
    case SampleOp(reading) => if h.session == Some(k) then n.(readings := n.readings + [reading]) else n
    case RestartOp => n.(stream := Sent(k, h, n))
    case _ => n
  }

  function Run(h: Recorder, ops: seq<Op>): Recorder {
    if ops == [] then h else Step(Run(h, ops[..|ops| - 1]), ops[|ops| - 1])
  }

  function Notebook(k: nat, h: Recorder, n: Notes, ops: seq<Op>): Notes {
    if ops == [] then n
    else Note(k, Run(h, ops[..|ops| - 1]), Notebook(k, h, n, ops[..|ops| - 1]), ops[|ops| - 1])
  }

  /** A recorder over an existing database, and what is noted to begin with: what is stored. */
  function Fresh(t: Tables): Recorder {
    Recorder(None, [], t)
  }

  function FirstNotes(k: nat, t: Tables): Notes {
    Notes(Of(t.lines, k), Of(t.samples, k), Numbers(t.sessions), [])
  }

  function Numbers(sessions: seq<SessionRow>): (ids: seq<nat>)
    ensures |ids| == |sessions| && forall i :: 0 <= i < |ids| ==> ids[i] == sessions[i].id
  {
    seq(|sessions|, i requires 0 <= i < |sessions| => sessions[i].id)
  }

  ghost predicate NoOrphans(t: Tables) {
    forall k: nat :: k !in Ids(t.sessions) ==> Of(t.lines, k) == [] && Of(t.samples, k) == []
  }

  /** A database this code may have left behind. */
  ghost predicate Sound(t: Tables) {
    && Ascending(t.sessions) && NoOrphans(t)
    && (forall k :: k in Ids(t.sessions) ==> |Of(t.lines, k)| <= MAX_LINES_PER_SESSION)
    && (forall k :: k in Ids(t.sessions) ==> |Of(t.samples, k)| <= MAX_SAMPLES_PER_SESSION)
  }

  // ---- the invariant ----

  /** The current attempt is the newest row, and is open. */
  ghost predicate CurrentIsNewest(h: Recorder) {
    && (h.session.None? ==> h.pending == [])
    && (h.session.Some? ==>
          var rows := h.tables.sessions;
          rows != [] && rows[|rows| - 1].id == h.session.value && rows[|rows| - 1].endedAt.None?)
  }

  ghost predicate Increasing(ids: seq<nat>) {
    forall i, j :: 0 <= i < j < |ids| ==> ids[i] < ids[j]
  }

  ghost predicate Distinct(ids: seq<nat>) {
    forall i, j :: 0 <= i < j < |ids| ==> ids[i] != ids[j]
  }

  ghost predicate AllBelow(ids: seq<nat>, bound: nat) {
    forall i :: 0 <= i < |ids| ==> ids[i] < bound
  }

  ghost predicate IdsOk(h: Recorder, n: Notes) {
    && Ascending(h.tables.sessions)
    && Increasing(n.issued) && AllBelow(n.issued, NextId(h.tables.sessions))
    && Distinct(n.closed) && AllBelow(n.closed, NextId(h.tables.sessions))
    && (h.session.Some? ==> h.session.value !in n.closed)
  }

  /** The part of the stream that has left the buffer. */
  function Sent(k: nat, h: Recorder, n: Notes): seq<string> {
    if h.session == Some(k) && |h.pending| <= |n.stream| then n.stream[..|n.stream| - |h.pending|] else n.stream
  }

  ghost predicate BufferIsTail(k: nat, h: Recorder, n: Notes) {
    h.session == Some(k) ==> |h.pending| <= |n.stream| && n.stream == Sent(k, h, n) + h.pending
  }

  ghost predicate Kept(k: nat, h: Recorder, n: Notes) {
    && Of(h.tables.lines, k) == (if k in Ids(h.tables.sessions) then Last(Sent(k, h, n), MAX_LINES_PER_SESSION) else [])
    && Of(h.tables.samples, k) == (if k in Ids(h.tables.sessions) then Last(n.readings, MAX_SAMPLES_PER_SESSION) else [])
    && (k >= NextId(h.tables.sessions) ==> n.stream == [] && n.readings == [])
  }

  ghost predicate Inv(k: nat, h: Recorder, n: Notes) {
    CurrentIsNewest(h) && IdsOk(h, n) && BufferIsTail(k, h, n) && Kept(k, h, n)
  }

  // ---- ids ----

  lemma {:induction false} UpdateKeepsIds(sessions: seq<SessionRow>, id: nat, change: SessionRow -> SessionRow)
    requires forall r {:trigger change(r)} :: change(r).id == r.id
    ensures Ids(Update(sessions, id, change)) == Ids(sessions)
    ensures NextId(Update(sessions, id, change)) == NextId(sessions)
    ensures Ascending(sessions) ==> Ascending(Update(sessions, id, change))
  {
    var u := Update(sessions, id, change);
    assert forall i :: 0 <= i < |u| ==> u[i].id == sessions[i].id;
    if sessions != [] {
      var init := sessions[..|sessions| - 1];
      UpdateKeepsIds(init, id, change);
      assert u[..|u| - 1] == Update(init, id, change);
    }
  }

  lemma IdBelow(sessions: seq<SessionRow>, k: nat)
    requires Ascending(sessions) && k in Ids(sessions)
    ensures k < NextId(sessions)
  {
    var i := IdAt(sessions, k);
  }

  lemma CurrentIsStored(h: Recorder)
    requires CurrentIsNewest(h) && h.session.Some?
    ensures h.session.value in Ids(h.tables.sessions) && h.session.value < NextId(h.tables.sessions)
  {
    IdOf(h.tables.sessions, |h.tables.sessions| - 1);
  }

  lemma InitInv(k: nat, t: Tables)
    requires Sound(t)
    ensures Inv(k, Fresh(t), FirstNotes(k, t))
  {
    if k in Ids(t.sessions) {
      IdBelow(t.sessions, k);
    }
  }

  // ---- flushing and appending ----

  lemma FlushTables(h: Recorder)
    requires h.session.Some? && h.pending != []
    ensures var t, t' := h.tables, Flush(h).tables;
            && t'.lines == Trim(t.lines + Rows(h.session.value, h.pending), h.session.value, MAX_LINES_PER_SESSION)
            && t'.samples == t.samples && t'.sessions == t.sessions
    ensures Flush(h).session == h.session && Flush(h).pending == []
  {
    hide Trim, Rows;
  }

  lemma SentAfterFlush(k: nat, h: Recorder, n: Notes)
    requires BufferIsTail(k, h, n) && h.session.Some?
    ensures Sent(k, Flush(h), n) == n.stream
    ensures h.session == Some(k) ==> Sent(k, h, n) + h.pending == n.stream
    ensures h.session != Some(k) ==> Sent(k, h, n) == n.stream
  {
  }

  lemma FlushKept(k: nat, h: Recorder, n: Notes)
    requires CurrentIsNewest(h) && BufferIsTail(k, h, n) && Kept(k, h, n)
    requires h.session.Some? && h.pending != []
    ensures Kept(k, Flush(h), n)
  {
    CurrentIsStored(h);
    FlushTables(h);
    SentAfterFlush(k, h, n);
    hide Trim, Rows, Of, Ids, NextId, Flush, Last, CurrentIsNewest, Sent, BufferIsTail;
    if k == h.session.value {
      InsertExtends(h.tables.lines, k, h.pending, MAX_LINES_PER_SESSION, Sent(k, h, n));
    } else {
      InsertElsewhere(h.tables.lines, h.session.value, h.pending, MAX_LINES_PER_SESSION, k);
    }
  }

  lemma FlushFrame(k: nat, h: Recorder, n: Notes)
    requires CurrentIsNewest(h) && IdsOk(h, n)
    ensures CurrentIsNewest(Flush(h)) && IdsOk(Flush(h), n) && BufferIsTail(k, Flush(h), n)
    ensures Flush(h).pending == [] && Flush(h).session == h.session
    ensures h.session.None? || h.pending == [] ==> Flush(h) == h
  {
  }

  lemma FlushInv(k: nat, h: Recorder, n: Notes)
    requires Inv(k, h, n)
    ensures Inv(k, Flush(h), n) && Flush(h).pending == []
  {
    hide CurrentIsNewest, IdsOk, BufferIsTail, Kept, Flush;
    FlushFrame(k, h, n);
    if h.session.Some? && h.pending != [] {
      FlushKept(k, h, n);
    }
  }

  function Buffered(h: Recorder, line: string): Recorder {
    h.(pending := h.pending + [line])
  }

  lemma BufferInv(k: nat, h: Recorder, n: Notes, line: string)
    requires Inv(k, h, n) && h.session.Some?
    ensures Inv(k, Buffered(h, line), Note(k, h, n, AppendOp(line)))
  {
    var h', n' := Buffered(h, line), Note(k, h, n, AppendOp(line));
    CurrentIsStored(h);
    assert Sent(k, h', n') == Sent(k, h, n);
    assert n'.stream != n.stream ==> n'.stream == Sent(k, h, n) + h'.pending;
    assert IdsOk(h', n');
    hide IdsOk, Ids, NextId, Of, Last;
  }

  lemma AppendInv(k: nat, h: Recorder, n: Notes, line: string)
    requires Inv(k, h, n) && |h.pending| < FLUSH_AT
    ensures Inv(k, Append(h, line), Note(k, h, n, AppendOp(line))) && |Append(h, line).pending| < FLUSH_AT
  {
    hide Inv, Flush;
    if h.session.Some? {
      BufferInv(k, h, n, line);
      FlushInv(k, Buffered(h, line), Note(k, h, n, AppendOp(line)));
    }
  }

  // ---- closing, marking, sampling ----

  lemma AppendClosed(closed: seq<nat>, id: nat, bound: nat)
    requires Distinct(closed) && AllBelow(closed, bound) && id !in closed && id < bound
    ensures Distinct(closed + [id]) && AllBelow(closed + [id], bound)
  {
  }

  lemma CloseInv(k: nat, h: Recorder, n: Notes, outcome: string, reason: string, now: int)
    requires Inv(k, h, n) && h.session.Some? && h.pending == []
    ensures Inv(k, End(h, outcome, reason, now), Note(k, h, n, EndOp(outcome, reason, now)))
  {
    var h', n' := End(h, outcome, reason, now), Note(k, h, n, EndOp(outcome, reason, now));
    UpdateKeepsIds(h.tables.sessions, h.session.value, Closing(outcome, reason, now));
    CurrentIsStored(h);
    AppendClosed(n.closed, h.session.value, NextId(h.tables.sessions));
    assert Sent(k, h', n') == n.stream == Sent(k, h, n);
    hide Ascending, Distinct, AllBelow, Increasing, Ids, NextId, Of, Closing, Last;
  }

  lemma EndUnfolds(k: nat, h: Recorder, n: Notes, outcome: string, reason: string, now: int)
    ensures h.session.None? ==> End(h, outcome, reason, now) == Flush(h) && Note(k, h, n, EndOp(outcome, reason, now)) == n
    ensures h.session.Some? ==> End(h, outcome, reason, now) == End(Flush(h), outcome, reason, now)
    ensures Note(k, Flush(h), n, EndOp(outcome, reason, now)) == Note(k, h, n, EndOp(outcome, reason, now))
    ensures NextId(End(h, outcome, reason, now).tables.sessions) == NextId(h.tables.sessions)
    ensures End(h, outcome, reason, now).session == None && End(h, outcome, reason, now).pending == []
    ensures Flush(h).session == h.session
  {
    hide LinesAppended, NextId;
    if h.session.Some? {
      UpdateKeepsIds(h.tables.sessions, h.session.value, Closing(outcome, reason, now));
      assert Flush(h).tables.sessions == h.tables.sessions by { SessionsUntouched(h); }
    }
  }

  lemma SessionsUntouched(h: Recorder)
    ensures Flush(h).tables.sessions == h.tables.sessions
  {
  }

  lemma EndInv(k: nat, h: Recorder, n: Notes, outcome: string, reason: string, now: int)
    requires Inv(k, h, n)
    ensures Inv(k, End(h, outcome, reason, now), Note(k, h, n, EndOp(outcome, reason, now)))
    ensures NextId(End(h, outcome, reason, now).tables.sessions) == NextId(h.tables.sessions)
    ensures End(h, outcome, reason, now).session == None && End(h, outcome, reason, now).pending == []
  {
    hide *;
    EndUnfolds(k, h, n, outcome, reason, now);
    FlushInv(k, h, n);
    if h.session.Some? {
      CloseInv(k, Flush(h), n, outcome, reason, now);
    }
  }

  lemma MarkInv(k: nat, h: Recorder, n: Notes, now: int)
    requires Inv(k, h, n)
    ensures Inv(k, MarkConnected(h, now), n)
  {
    if h.session.Some? {
      UpdateKeepsIds(h.tables.sessions, h.session.value, Marking(now));
      assert Sent(k, MarkConnected(h, now), n) == Sent(k, h, n);
      hide Ascending, Distinct, AllBelow, Increasing, Ids, NextId, Of, Last, Sent;
    }
  }

  lemma SampleTables(h: Recorder, reading: Reading)
    requires h.session.Some?
    ensures var t, t' := h.tables, Sample(h, reading).tables;
            && t'.samples == Trim(t.samples + Rows(h.session.value, [reading]), h.session.value, MAX_SAMPLES_PER_SESSION)
            && t'.lines == t.lines && t'.sessions == t.sessions
    ensures Sample(h, reading).session == h.session && Sample(h, reading).pending == h.pending
  {
    hide Trim, Rows;
  }

  lemma SampleKept(k: nat, h: Recorder, n: Notes, reading: Reading)
    requires CurrentIsNewest(h) && Kept(k, h, n) && h.session.Some?
    ensures Kept(k, Sample(h, reading), Note(k, h, n, SampleOp(reading)))
  {
    hide Trim, Rows, Of, Ids, NextId, Sample, Last;
    CurrentIsStored(h);
    SampleTables(h, reading);
    assert Sent(k, Sample(h, reading), Note(k, h, n, SampleOp(reading))) == Sent(k, h, n);
    hide CurrentIsNewest, Sent;
    if k == h.session.value {
      InsertExtends(h.tables.samples, k, [reading], MAX_SAMPLES_PER_SESSION, n.readings);
    } else {
      InsertElsewhere(h.tables.samples, h.session.value, [reading], MAX_SAMPLES_PER_SESSION, k);
    }
  }

  lemma SampleFrame(k: nat, h: Recorder, h': Recorder, n: Notes, n': Notes)
    requires CurrentIsNewest(h) && IdsOk(h, n) && BufferIsTail(k, h, n)
    requires h'.session == h.session && h'.pending == h.pending && h'.tables.sessions == h.tables.sessions
    requires n'.stream == n.stream && n'.issued == n.issued && n'.closed == n.closed
    ensures CurrentIsNewest(h') && IdsOk(h', n') && BufferIsTail(k, h', n')
  {
    hide Ascending, Increasing, Distinct, AllBelow, NextId;
  }

  lemma SampleInv(k: nat, h: Recorder, n: Notes, reading: Reading)
    requires Inv(k, h, n)
    ensures Inv(k, Sample(h, reading), Note(k, h, n, SampleOp(reading)))
  {
    if h.session.Some? {
      hide CurrentIsNewest, IdsOk, BufferIsTail, Kept, Sample;
      SampleKept(k, h, n, reading);
      SampleTables(h, reading);
      SampleFrame(k, h, Sample(h, reading), n, Note(k, h, n, SampleOp(reading)));
    }
  }

  lemma EventInv(k: nat, h: Recorder, n: Notes, kind: string, why: string)
    requires Inv(k, h, n)
    ensures Inv(k, Record(h, kind, why), n)
  {
  }

  // ---- starting an attempt ----

  lemma KeptIds(sessions: seq<SessionRow>, cutoff: int, keep: nat)
    requires Ascending(sessions)
    ensures Ascending(Store.Kept(sessions, cutoff, keep))
    ensures Ids(Store.Kept(sessions, cutoff, keep)) <= Ids(sessions)
  {
    FilterAscending(sessions, InWindow(cutoff));
    var kept := Store.Kept(sessions, cutoff, keep);
    forall k | k in Ids(kept)
      ensures k in Ids(sessions)
    {
      var i := IdAt(kept, k);
      assert kept[i] in kept;
      var j :| 0 <= j < |sessions| && sessions[j] == kept[i];
      IdOf(sessions, j);
    }
  }

  lemma {:induction false} OfOutside<T(!new)>(rows: seq<Owned<T>>, ids: set<nat>, k: nat)
    requires forall r :: r in rows ==> r.session in ids
    requires k !in ids
    ensures Of(rows, k) == []
  {
    if rows == [] {
    } else {
      assert rows == rows[..|rows| - 1] + [rows[|rows| - 1]];
      OfOutside(rows[..|rows| - 1], ids, k);
    }
  }

  lemma SweptKeeps<T(!new)>(rows: seq<Owned<T>>, ids: set<nat>, k: nat)
    ensures Of(Filter(rows, OwnedBy(ids)), k) == if k in ids then Of(rows, k) else []
  {
    if k in ids {
      OfFiltered(rows, ids, k);
    } else {
      OfOutside(Filter(rows, OwnedBy(ids)), ids, k);
    }
  }

  /** The recorder once the new row is in, before the sweep. */
  function Opened(h: Recorder, connection: Option<string>, now: int): Recorder {
    Recorder(Some(NextId(h.tables.sessions)), [], Started(h.tables, connection, now))
  }

  function Issued(n: Notes, id: nat): Notes {
    n.(issued := n.issued + [id])
  }

  lemma AppendIssued(ids: seq<nat>, id: nat)
    requires Increasing(ids) && AllBelow(ids, id)
    ensures Increasing(ids + [id]) && AllBelow(ids + [id], id + 1)
  {
  }

  lemma AppendRow(s: seq<SessionRow>, row: SessionRow)
    requires Ascending(s) && row.id == NextId(s)
    ensures Ascending(s + [row]) && NextId(s + [row]) == row.id + 1
    ensures Ids(s + [row]) == Ids(s) + {row.id}
    ensures row.id !in Ids(s)
  {
    assert (s + [row])[..|s|] == s;
    if row.id in Ids(s) {
      IdBelow(s, row.id);
    }
  }

  lemma RaiseBound(ids: seq<nat>, bound: nat)
    requires AllBelow(ids, bound)
    ensures AllBelow(ids, bound + 1) && bound !in ids
  {
  }

  lemma OpenTables(h: Recorder, connection: Option<string>, now: int)
    ensures var t, h' := h.tables, Opened(h, connection, now);
            && h'.tables.lines == t.lines && h'.tables.samples == t.samples
            && h'.session == Some(NextId(t.sessions)) && h'.pending == []
            && CurrentIsNewest(h')
            && (Ascending(t.sessions) ==> Ascending(h'.tables.sessions))
            && (Ascending(t.sessions) ==> NextId(t.sessions) !in Ids(t.sessions))
            && NextId(h'.tables.sessions) == NextId(t.sessions) + 1
            && Ids(h'.tables.sessions) == Ids(t.sessions) + {NextId(t.sessions)}
  {
    var s, s' := h.tables.sessions, Opened(h, connection, now).tables.sessions;
    assert s'[..|s|] == s;
    if Ascending(s) {
      AppendRow(s, s'[|s|]);
    }
  }

  lemma OpenIds(h: Recorder, h': Recorder, n: Notes, id: nat)
    requires IdsOk(h, n) && id == NextId(h.tables.sessions) && h'.session == Some(id)
    requires Ascending(h'.tables.sessions) && NextId(h'.tables.sessions) == id + 1
    ensures IdsOk(h', Issued(n, id))
  {
    hide Ascending, NextId;
    AppendIssued(n.issued, id);
    RaiseBound(n.closed, id);
    hide AllBelow, Increasing, Distinct;
  }

  lemma OpenKept(k: nat, h: Recorder, h': Recorder, n: Notes, id: nat)
    requires Kept(k, h, n) && h.session.None? && id == NextId(h.tables.sessions)
    requires h'.session == Some(id) && h'.pending == []
    requires h'.tables.lines == h.tables.lines && h'.tables.samples == h.tables.samples
    requires id !in Ids(h.tables.sessions) && NextId(h'.tables.sessions) == id + 1
    requires Ids(h'.tables.sessions) == Ids(h.tables.sessions) + {id}
    ensures Kept(k, h', Issued(n, id)) && BufferIsTail(k, h', Issued(n, id))
  {
    hide Ids, NextId, Of;
    assert Sent(k, h', Issued(n, id)) == n.stream == Sent(k, h, n);
    hide Sent;
    if k == id {
      assert Last(n.stream, MAX_LINES_PER_SESSION) == [] && Last(n.readings, MAX_SAMPLES_PER_SESSION) == [];
    }
  }

  lemma OpenInv(k: nat, h: Recorder, n: Notes, connection: Option<string>, now: int)
    requires Inv(k, h, n) && h.session.None?
    ensures Inv(k, Opened(h, connection, now), Issued(n, NextId(h.tables.sessions)))
  {
    assert Ascending(h.tables.sessions);
    hide Ascending, IdsOk, Kept, BufferIsTail, CurrentIsNewest, Ids, NextId, Opened, Issued;
    var id, h' := NextId(h.tables.sessions), Opened(h, connection, now);
    OpenTables(h, connection, now);
    OpenIds(h, h', n, id);
    OpenKept(k, h, h', n, id);
  }

  function Sweep(h: Recorder, cutoff: int): Recorder {
    h.(tables := Swept(h.tables, cutoff, KEEP_SESSIONS))
  }

  lemma SweepIds(h: Recorder, n: Notes, cutoff: int)
    requires CurrentIsNewest(h) && IdsOk(h, n) && h.session.Some?
    ensures CurrentIsNewest(Sweep(h, cutoff)) && IdsOk(Sweep(h, cutoff), n)
    ensures NextId(Sweep(h, cutoff).tables.sessions) == NextId(h.tables.sessions)
    ensures Ids(Sweep(h, cutoff).tables.sessions) <= Ids(h.tables.sessions)
  {
    NewestSurvives(h.tables.sessions, cutoff, KEEP_SESSIONS);
    KeptIds(h.tables.sessions, cutoff, KEEP_SESSIONS);
    hide Store.Kept, Ascending, Distinct, AllBelow, Increasing;
  }

  lemma SweepTables(h: Recorder, cutoff: int)
    ensures var t, h' := h.tables, Sweep(h, cutoff);
            && h'.tables.lines == Filter(t.lines, OwnedBy(Ids(h'.tables.sessions)))
            && h'.tables.samples == Filter(t.samples, OwnedBy(Ids(h'.tables.sessions)))
            && h'.session == h.session && h'.pending == h.pending
  {
    hide Filter, Ids, Store.Kept;
  }

  lemma SweepKept(k: nat, h: Recorder, n: Notes, cutoff: int)
    requires Kept(k, h, n) && Ids(Sweep(h, cutoff).tables.sessions) <= Ids(h.tables.sessions)
    requires NextId(Sweep(h, cutoff).tables.sessions) == NextId(h.tables.sessions)
    ensures Kept(k, Sweep(h, cutoff), n)
  {
    hide Ids, NextId, Of, Filter, Last, Sweep;
    SweepTables(h, cutoff);
    assert Sent(k, Sweep(h, cutoff), n) == Sent(k, h, n);
    hide Sent;
    var ids := Ids(Sweep(h, cutoff).tables.sessions);
    SweptKeeps(h.tables.lines, ids, k);
    SweptKeeps(h.tables.samples, ids, k);
  }

  lemma SweepInv(k: nat, h: Recorder, n: Notes, cutoff: int)
    requires Inv(k, h, n) && h.session.Some?
    ensures Inv(k, Sweep(h, cutoff), n)
  {
    SweepTables(h, cutoff);
    assert BufferIsTail(k, Sweep(h, cutoff), n);
    hide CurrentIsNewest, IdsOk, BufferIsTail, Kept, Sweep;
    SweepIds(h, n, cutoff);
    SweepKept(k, h, n, cutoff);
  }

  lemma StartUnfolds(k: nat, h: Recorder, n: Notes, connection: Option<string>, now: int)
    ensures var e := End(h, "interrupted", "", now);
            && e.session.None?
            && Start(h, connection, now) == Sweep(Opened(e, connection, now), now - RETENTION_SECONDS)
            && Opened(e, connection, now).session == Some(NextId(e.tables.sessions))
            && Note(k, h, n, StartOp(connection, now))
               == Issued(Note(k, h, n, EndOp("interrupted", "", now)), NextId(h.tables.sessions))
            && Start(h, connection, now).session == Some(NextId(e.tables.sessions))
            && Start(h, connection, now).pending == []
  {
    hide NextId, Started, Swept, Flush;
  }

  lemma StartInv(k: nat, h: Recorder, n: Notes, connection: Option<string>, now: int)
    requires Inv(k, h, n)
    ensures Inv(k, Start(h, connection, now), Note(k, h, n, StartOp(connection, now)))
    ensures Start(h, connection, now).session == Some(NextId(h.tables.sessions))
    ensures Start(h, connection, now).pending == []
  {
    hide *;
    var e, n1 := End(h, "interrupted", "", now), Note(k, h, n, EndOp("interrupted", "", now));
    StartUnfolds(k, h, n, connection, now);
    EndInv(k, h, n, "interrupted", "", now);
    OpenInv(k, e, n1, connection, now);
    SweepInv(k, Opened(e, connection, now), Issued(n1, NextId(e.tables.sessions)), now - RETENTION_SECONDS);
  }

  // ---- every run ----

  lemma OtherFrame(h: Recorder, op: Op)
    requires op.MarkOp? || op.SampleOp? || op.EventOp?
    ensures Step(h, op).pending == h.pending
  {
  }

  lemma RestartInv(k: nat, h: Recorder, n: Notes)
    requires Inv(k, h, n)
    ensures Inv(k, Fresh(h.tables), Note(k, h, n, RestartOp))
  {
    hide Of, Ids, NextId, Last, Increasing, Distinct, AllBelow, Ascending;
  }

  lemma StepInv(k: nat, h: Recorder, n: Notes, op: Op)
    requires Inv(k, h, n) && |h.pending| < FLUSH_AT
    ensures Inv(k, Step(h, op), Note(k, h, n, op)) && |Step(h, op).pending| < FLUSH_AT
  {
    hide Inv, Start, Append, Flush, MarkConnected, End, Sample, Record;
    match op
    case StartOp(connection, now) => StartInv(k, h, n, connection, now);
    case AppendOp(line) => AppendInv(k, h, n, line);
    case FlushOp => FlushInv(k, h, n);
    case MarkOp(now) => MarkInv(k, h, n, now); OtherFrame(h, op);
    case EndOp(outcome, reason, now) => EndInv(k, h, n, outcome, reason, now);
    case SampleOp(reading) => SampleInv(k, h, n, reading); OtherFrame(h, op);
    case EventOp(kind, why) => EventInv(k, h, n, kind, why); OtherFrame(h, op);
    case RestartOp => RestartInv(k, h, n);
  }

  lemma {:induction false} RunInv(k: nat, t: Tables, ops: seq<Op>)
    requires Sound(t)
    ensures Inv(k, Run(Fresh(t), ops), Notebook(k, Fresh(t), FirstNotes(k, t), ops))
    ensures |Run(Fresh(t), ops).pending| < FLUSH_AT
  {
    if ops == [] {
      InitInv(k, t);
    } else {
      RunInv(k, t, ops[..|ops| - 1]);
      hide Inv, Step, Note, FirstNotes;
      StepInv(k, Run(Fresh(t), ops[..|ops| - 1]), Notebook(k, Fresh(t), FirstNotes(k, t), ops[..|ops| - 1]), ops[|ops| - 1]);
    }
  }

  // ---- what this means over any run ----

  /**
   For every schedule of appends, flushes, attempts and restarts, and every session number: after a flush its
   stored log is the last 2000 lines of everything sent while it was current, and nothing if it is no longer in
   the table.
   The buffer never holds more than 49 lines between steps.
   */
  lemma LogIsNewestOfStream(k: nat, t: Tables, ops: seq<Op>)
    requires Sound(t)
    ensures |Run(Fresh(t), ops).pending| <= FLUSH_AT - 1
    ensures Of(Flush(Run(Fresh(t), ops)).tables.lines, k) ==
            if k in Ids(Flush(Run(Fresh(t), ops)).tables.sessions)
            then Last(Notebook(k, Fresh(t), FirstNotes(k, t), ops).stream, MAX_LINES_PER_SESSION) else []
  {
    RunInv(k, t, ops);
    FlushedLog(k, Run(Fresh(t), ops), Notebook(k, Fresh(t), FirstNotes(k, t), ops));
  }

  lemma FlushedLog(k: nat, h: Recorder, n: Notes)
    requires Inv(k, h, n)
    ensures Of(Flush(h).tables.lines, k) ==
            if k in Ids(Flush(h).tables.sessions) then Last(n.stream, MAX_LINES_PER_SESSION) else []
  {
    FlushInv(k, h, n);
    hide IdsOk, Flush, Of, Ids, NextId;
    assert Sent(k, Flush(h), n) == n.stream;
  }

  lemma InOfLast(all: seq<Reading>, cap: nat)
    ensures In(Last(all, cap)) == Last(In(all), cap)
  {
  }

  lemma OutOfLast(all: seq<Reading>, cap: nat)
    ensures Out(Last(all, cap)) == Last(Out(all), cap)
  {
  }

  /** If a session's counter never went back, the total the reader shows is its last reading, trimmed or not. */
  lemma TotalIsLastOfRun(t: Tables, ops: seq<Op>, cutoff: int, limit: nat, i: nat)
    requires Sound(t) && i < |List(Run(Fresh(t), ops).tables, cutoff, limit)|
    ensures var shown := List(Run(Fresh(t), ops).tables, cutoff, limit)[i];
            var readings := Notebook(shown.row.id, Fresh(t), FirstNotes(shown.row.id, t), ops).readings;
            && (readings == [] ==> shown.bytesIn == None && shown.bytesOut == None)
            && (readings != [] && NonDecreasing(In(readings)) ==> shown.bytesIn == Some(readings[|readings| - 1].bytesIn))
            && (readings != [] && NonDecreasing(Out(readings)) ==> shown.bytesOut == Some(readings[|readings| - 1].bytesOut))
  {
    hide List, Run, Notebook, FirstNotes, Sound, Ids, Of, MaxOf, NonDecreasing, Last;
    var tables := Run(Fresh(t), ops).tables;
    ListedIs(tables, cutoff, limit, i);
    var k := List(tables, cutoff, limit)[i].row.id;
    StoredReadings(k, t, ops);
    LastTotals(Notebook(k, Fresh(t), FirstNotes(k, t), ops).readings);
  }

  lemma StoredReadings(k: nat, t: Tables, ops: seq<Op>)
    requires Sound(t) && k in Ids(Run(Fresh(t), ops).tables.sessions)
    ensures Of(Run(Fresh(t), ops).tables.samples, k) ==
            Last(Notebook(k, Fresh(t), FirstNotes(k, t), ops).readings, MAX_SAMPLES_PER_SESSION)
  {
    RunInv(k, t, ops);
    hide Run, Notebook, FirstNotes, Sound, Ids, Of, IdsOk, CurrentIsNewest, BufferIsTail, Sent, NextId, Last;
  }

  lemma LastTotals(readings: seq<Reading>)
    ensures var stored := Last(readings, MAX_SAMPLES_PER_SESSION);
            && (readings == [] ==> stored == [])
            && (readings != [] && NonDecreasing(In(readings)) ==> MaxOf(In(stored)) == Some(readings[|readings| - 1].bytesIn))
            && (readings != [] && NonDecreasing(Out(readings)) ==> MaxOf(Out(stored)) == Some(readings[|readings| - 1].bytesOut))
  {
    hide MaxOf, NonDecreasing;
    InOfLast(readings, MAX_SAMPLES_PER_SESSION);
    OutOfLast(readings, MAX_SAMPLES_PER_SESSION);
    if readings != [] && NonDecreasing(In(readings)) {
      TotalIsLastReading(In(readings), MAX_SAMPLES_PER_SESSION);
    }
    if readings != [] && NonDecreasing(Out(readings)) {
      TotalIsLastReading(Out(readings), MAX_SAMPLES_PER_SESSION);
    }
  }

  /**
   Over the whole life of a database, restarts included: ids are issued in strictly increasing order, above those
   stored to begin with, and each id in the table is below the next one.  None is ever reused.
   */
  lemma IdsNeverReused(k: nat, t: Tables, ops: seq<Op>)
    requires Sound(t)
    ensures Increasing(Notebook(k, Fresh(t), FirstNotes(k, t), ops).issued)
    ensures AllBelow(Notebook(k, Fresh(t), FirstNotes(k, t), ops).issued, NextId(Run(Fresh(t), ops).tables.sessions))
    ensures k in Ids(Run(Fresh(t), ops).tables.sessions) ==> k < NextId(Run(Fresh(t), ops).tables.sessions)
  {
    RunInv(k, t, ops);
    hide NextId;
    if k in Ids(Run(Fresh(t), ops).tables.sessions) {
      IdBelow(Run(Fresh(t), ops).tables.sessions, k);
    }
  }

  /** No attempt is closed twice. */
  lemma ClosedAtMostOnce(k: nat, t: Tables, ops: seq<Op>)
    requires Sound(t)
    ensures Distinct(Notebook(k, Fresh(t), FirstNotes(k, t), ops).closed)
  {
    RunInv(k, t, ops);
  }

  /** No line or reading is ever left without its session. */
  lemma NeverOrphans(t: Tables, ops: seq<Op>)
    requires Sound(t)
    ensures NoOrphans(Run(Fresh(t), ops).tables)
  {
    forall k: nat | k !in Ids(Run(Fresh(t), ops).tables.sessions)
      ensures Of(Run(Fresh(t), ops).tables.lines, k) == [] && Of(Run(Fresh(t), ops).tables.samples, k) == []
    {
      RunInv(k, t, ops);
    }
  }

  /** The attempt just started is in the table, open and newest, whatever the sweep removed. */
  lemma StartedSurvivesSweep(t: Tables, ops: seq<Op>, connection: Option<string>, now: int)
    requires Sound(t)
    ensures var h := Start(Run(Fresh(t), ops), connection, now);
            && h.session == Some(NextId(Run(Fresh(t), ops).tables.sessions))
            && h.tables.sessions != []
            && h.tables.sessions[|h.tables.sessions| - 1].id == h.session.value
            && h.tables.sessions[|h.tables.sessions| - 1].endedAt.None?
  {
    RunInv(0, t, ops);
    hide Start, NextId;
    StartInv(0, Run(Fresh(t), ops), Notebook(0, Fresh(t), FirstNotes(0, t), ops), connection, now);
  }

  /** A row as a new attempt finds it: what was still current has ended now, as interrupted. */
  function Interrupted(row: SessionRow, session: Option<nat>, now: int): SessionRow {
    if session == Some(row.id) then row.(endedAt := Some(now), outcome := "interrupted", reason := "") else row
  }

  lemma ClosedByStart(h: Recorder, now: int)
    ensures var (rows, closed) := (h.tables.sessions, End(h, "interrupted", "", now).tables.sessions);
            && |closed| == |rows|
            && forall i :: 0 <= i < |rows| ==> closed[i] == Interrupted(rows[i], h.session, now)
  {
    assert Flush(h).tables.sessions == h.tables.sessions && Flush(h).session == h.session by { hide LinesAppended; }
    hide Flush;
  }

  lemma StillAscending(rows: seq<SessionRow>, closed: seq<SessionRow>, row: SessionRow)
    requires Ascending(rows) && |closed| == |rows| && forall i :: 0 <= i < |rows| ==> closed[i].id == rows[i].id
    requires row.id == NextId(closed)
    ensures Ascending(closed + [row])
  {
  }

  /** The rows a new attempt finds, and its own. */
  ghost predicate WithNew(h: Recorder, connection: Option<string>, now: int, rows: seq<SessionRow>) {
    && |rows| == |h.tables.sessions| + 1
    && (forall k :: 0 <= k < |h.tables.sessions| ==> rows[k] == Interrupted(h.tables.sessions[k], h.session, now))
    && rows[|rows| - 1] == SessionRow(if |rows| == 1 then 1 else rows[|rows| - 2].id + 1, connection, now, None, None, "", "")
  }

  lemma StartedRows(h: Recorder, connection: Option<string>, now: int, rows: seq<SessionRow>)
    requires Ascending(h.tables.sessions) && WithNew(h, connection, now, rows)
    ensures rows == Started(End(h, "interrupted", "", now).tables, connection, now).sessions && Ascending(rows)
  {
    var closed := End(h, "interrupted", "", now).tables.sessions;
    ClosedByStart(h, now);
    hide End;
    assert closed == rows[..|closed|];
    assert rows == closed + [rows[|rows| - 1]];
    StillAscending(h.tables.sessions, closed, rows[|rows| - 1]);
  }

  /**
   What a new attempt leaves in the table: the rows that have not ended or ended in the last seven days, of those the
   newest 200, itself among them.
   */
  lemma StartKeepsExactly(h: Recorder, connection: Option<string>, now: int, rows: seq<SessionRow>, i: nat)
    requires Ascending(h.tables.sessions) && WithNew(h, connection, now, rows) && i < |rows|
    ensures rows[i] in Start(h, connection, now).tables.sessions <==> Stays(rows, i, now - 7 * 24 * 60 * 60, 200)
  {
    var started := Started(End(h, "interrupted", "", now).tables, connection, now);
    hide End, Ascending, Swept, Stays, WithNew, Started;
    StartedRows(h, connection, now, rows);
    SurvivesExactly(started, now - RETENTION_SECONDS, KEEP_SESSIONS, i);
  }
}
