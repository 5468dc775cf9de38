/**
 What is recorded and told of each change of phase, said of the phases before and after it, the two flags and the
 rows: when an UP or a DOWN is appended and with which reason, and how the session's row is closed.
 */
module ControllerEvents {
  import opened Options
  import opened Store
  import opened Tails
  import opened HistoryLog
  import opened Controller
  import opened ControllerRuns
  import ControllerHistory

  type Beginning = ControllerHistory.Beginning

  // ---- one step ----

  /** A tunnel the operator was told is up has ended, directly or after it was asked to stop. */
  predicate WentDown(s: State, after: Phase) {
    && s.notifiedUp
    && (s.status.state == CONNECTED || s.status.state == DISCONNECTING) && (after == DISCONNECTED || after == FAILED)
  }

  predicate CameUp(s: State, after: Phase) {
    !s.notifiedUp && s.status.state != CONNECTED && after == CONNECTED
  }

  function Why(s: State): string {
    if s.shutdownRequested then "operator-requested" else "link-lost"
  }

  /** One DOWN, one UP or nothing is appended, and the flags follow. */
  ghost predicate Tells(s: State, s': State) {
    var (up, down) := (CameUp(s, s'.status.state), WentDown(s, s'.status.state));
    && s'.trace == s.trace + (if down then [DownMark(Why(s))] else if up then [UpMark] else [])
    && s'.history.tables.events ==
         s.history.tables.events + (if down then [Event("DOWN", Why(s))] else if up then [Event("UP", "")] else [])
    && s'.notifiedUp == ((s.notifiedUp || up) && !down)
    && s'.shutdownRequested == (s.shutdownRequested && !down)
  }

  /** What the announcement of a phase makes of one row. */
  function RowWritten(row: SessionRow, session: Option<nat>, after: Phase, reason: string, now: int): SessionRow {
    if session != Some(row.id) then row
    else if after == FAILED then row.(endedAt := Some(now), outcome := "failed", reason := reason)
    else if after == DISCONNECTED then row.(endedAt := Some(now), outcome := "disconnected", reason := reason)
    else if after == CONNECTED && row.connectedAt == None then row.(connectedAt := Some(now))
    else row
  }

  function RowAfter(row: SessionRow, s: State, after: Phase, now: int): SessionRow {
    if after == s.status.state then row
    else RowWritten(row, s.history.session, after, if WentDown(s, after) then Why(s) else "", now)
  }

  /** The row of the session is marked or closed, no other row changes, and a closed session is no longer current. */
  ghost predicate Closes(s: State, s': State, now: int) {
    var (rows, rows', after) := (s.history.tables.sessions, s'.history.tables.sessions, s'.status.state);
    && |rows'| == |rows|
    && (forall i :: 0 <= i < |rows| ==> rows'[i] == RowAfter(rows[i], s, after, now))
    && s'.history.session == if after != s.status.state && (after == DISCONNECTED || after == FAILED) then None else s.history.session
  }

  ghost predicate Follows(s: State, s': State, now: int) {
    Tells(s, s') && Closes(s, s', now)
  }

  lemma RecordedEvents(m: State, before: Phase, now: int)
    ensures Recorded(m, before, now).tables.events == m.history.tables.events
  {
    hide Trim, Update;
  }

  lemma AnnouncedTells(s: State, m: State, now: int)
    requires SameCore(s, m)
    ensures Tells(s, Announced(m, s.status.state, now))
  {
    RecordedEvents(m, s.status.state, now);
    assert s.trace + [] == s.trace && s.history.tables.events + [] == s.history.tables.events;
    hide Recorded;
  }

  lemma EndedRows(h: Recorder, outcome: string, reason: string, now: int)
    ensures var (rows, rows') := (h.tables.sessions, End(h, outcome, reason, now).tables.sessions);
            && |rows'| == |rows|
            && forall i :: 0 <= i < |rows| ==>
                 rows'[i] == if h.session == Some(rows[i].id) then rows[i].(endedAt := Some(now), outcome := outcome, reason := reason) else rows[i]
    ensures End(h, outcome, reason, now).session == None
  {
    FlushRows(h);
    hide Flush;
  }

  lemma MarkedRows(h: Recorder, now: int)
    ensures var (rows, rows') := (h.tables.sessions, MarkConnected(h, now).tables.sessions);
            && |rows'| == |rows|
            && forall i :: 0 <= i < |rows| ==>
                 rows'[i] == if h.session == Some(rows[i].id) && rows[i].connectedAt == None then rows[i].(connectedAt := Some(now)) else rows[i]
    ensures MarkConnected(h, now).session == h.session
  {
  }

  ghost predicate Rewritten(h: Recorder, h': Recorder, after: Phase, reason: string, now: int) {
    && |h'.tables.sessions| == |h.tables.sessions|
    && (forall i :: 0 <= i < |h.tables.sessions| ==>
          h'.tables.sessions[i] == RowWritten(h.tables.sessions[i], h.session, after, reason, now))
    && h'.session == if after == DISCONNECTED || after == FAILED then None else h.session
  }

  lemma WrittenRows(h: Recorder, after: Phase, reason: string, now: int)
    ensures Rewritten(h, Written(h, after, reason, now), after, reason, now)
  {
    var f := Flush(h);
    FlushRows(h);
    MarkedRows(f, now);
    EndedRows(f, if after == FAILED then "failed" else "disconnected", reason, now);
    hide Flush, MarkConnected, End;
  }

  lemma AnnouncedWrites(m: State, before: Phase, now: int)
    ensures var (h, w) := (Announced(m, before, now).history, Written(m.history, m.status.state, Reason(m, before), now));
            before != m.status.state ==> h.tables.sessions == w.tables.sessions && h.session == w.session
    ensures before == m.status.state ==> Announced(m, before, now).history == m.history
  {
    hide Written;
  }

  lemma AnnouncedCloses(s: State, m: State, now: int)
    requires SameCore(s, m)
    ensures Closes(s, Announced(m, s.status.state, now), now)
  {
    var before, after := s.status.state, m.status.state;
    AnnouncedWrites(m, before, now);
    AnnouncedStatus(m, before, now);
    hide Announced;
    if before != after {
      WrittenRows(m.history, after, Reason(m, before), now);
      hide Written;
    }
  }

  /** A block that leaves the core alone, announced, and then some other fields set. */
  lemma FollowsFrom(s: State, m: State, now: int, s': State)
    requires SameCore(s, m) && SameCore(Announced(m, s.status.state, now), s') && s'.status == m.status
    ensures Follows(s, s', now)
  {
    AnnouncedTells(s, m, now);
    AnnouncedCloses(s, m, now);
    AnnouncedStatus(m, s.status.state, now);
    hide Announced, WentDown, CameUp, Why, RowAfter;
  }

  /** A step that announces nothing and ends nothing. */
  lemma FollowsQuietly(s: State, s': State, now: int)
    requires s'.trace == s.trace && s'.notifiedUp == s.notifiedUp && s'.shutdownRequested == s.shutdownRequested
    requires var (t, t') := (s.history.tables, s'.history.tables);
             t'.sessions == t.sessions && t'.events == t.events && s'.history.session == s.history.session
    requires s'.status.state == s.status.state || s'.status.state in {AUTHENTICATING, CONNECTING}
    ensures Follows(s, s', now)
  {
    assert s.trace + [] == s.trace && s.history.tables.events + [] == s.history.tables.events;
  }

  lemma DisconnectFollows(s: State, now: int)
    ensures Follows(s, BeginDisconnect(s, now), now) && Follows(s, FinishDisconnect(s, now), now)
  {
    var m1 := s.(status := s.status.(state := DISCONNECTING, error := None));
    var m2 := s.(status := Status(DISCONNECTED, None, None, None));
    AnnouncedStatus(m1, s.status.state, now);
    AnnouncedStatus(m2, s.status.state, now);
    hide Announced, Follows;
    FollowsFrom(s, m1, now, BeginDisconnect(s, now));
    FollowsFrom(s, m2, now, FinishDisconnect(s, now));
  }

  lemma FailFollows(s: State, message: string, now: int)
    ensures Follows(s, Fail(s, message, now), now)
  {
    var m := s.(status := s.status.(state := FAILED, error := Some(message), connectedSince := None));
    AnnouncedStatus(m, s.status.state, now);
    hide Announced, Follows;
    FollowsFrom(s, m, now, Fail(s, message, now));
  }

  lemma StateFollows(s: State, name: string, now: int)
    ensures Follows(s, OnState(s, name, now), now)
  {
    var st := s.status;
    var st' :=
      if name == "CONNECTED" then
        st.(state := CONNECTED, error := None, connectedSince := Some(st.connectedSince.GetOr(now)))
      else if name == "EXITING" then
        st.(state := if HasError(st) then FAILED else DISCONNECTED, connectedSince := None)
      else if !Busy(st.state) then st.(state := CONNECTING)
      else st;
    var m := s.(status := st', settled := s.settled || name == "CONNECTED" || name == "EXITING");
    AnnouncedStatus(m, st.state, now);
    assert OnState(s, name, now) == Announced(m, st.state, now);
    hide Announced, OnState, Follows;
    FollowsFrom(s, m, now, OnState(s, name, now));
  }

  lemma SameTrackedFollows(s: State, s1: State, s': State, s'': State, now: int)
    requires SameCore(s, s1) && s1.status == s.status && Follows(s1, s', now) && SameCore(s', s'') && s''.status == s'.status
    ensures Follows(s, s'', now)
  {
  }

  lemma PromptFollows(s: State, sent: bool, now: int)
    ensures Follows(s, OnPasswordNeeded(s, sent, now), now)
  {
    var none, send := "OpenVPN asked for credentials but none were pending.", "Could not submit credentials";
    hide Fail, Follows;
    FailFollows(s, none, now);
    FailFollows(s, send, now);
    SameTrackedFollows(s, s, Fail(s, send, now), Fail(s, send, now).(pendingSecret := None), now);
    FollowsQuietly(s, s.(pendingSecret := None, authPrompt := true), now);
  }

  lemma RejectionFollows(s: State, now: int)
    ensures Follows(s, OnVerificationFailed(s, now), now)
  {
    var s1 := s.(authPrompt := true);
    hide Fail, Follows;
    FailFollows(s1, "Authentication rejected -- check the authenticator code and try again.", now);
    SameTrackedFollows(s, s1, OnVerificationFailed(s, now), OnVerificationFailed(s, now), now);
  }

  lemma ClosedFollows(s: State, now: int)
    ensures Follows(s, OnSocketClosed(s, now), now)
  {
    var st := s.status;
    var ended :=
      if st.state in {STARTING, AUTHENTICATING, CONNECTING} then
        st.(state := FAILED, error := if HasError(st) then st.error else Some("OpenVPN exited before the tunnel came up."))
      else if st.state in {CONNECTED, DISCONNECTING} then
        st.(state := if HasError(st) then FAILED else DISCONNECTED)
      else st;
    var m := s.(client := None, status := ended.(connectedSince := None));
    AnnouncedStatus(m, st.state, now);
    assert OnSocketClosed(s, now) == Announced(m, st.state, now).(settled := true, authPrompt := true);
    hide Announced, OnSocketClosed, Follows;
    FollowsFrom(s, m, now, OnSocketClosed(s, now));
  }

  lemma HistoryFollows(s: State, line: string, reading: Reading, now: int)
    ensures Follows(s, OnLog(s, line), now) && Follows(s, OnByteCount(s, reading), now)
  {
    OtherRows(s.history, line, reading);
    assert Append(s.history, line).tables.events == s.history.tables.events by { hide Trim; }
    assert Sample(s.history, reading).tables.events == s.history.tables.events by { hide Trim; }
    hide Append, Sample, Follows;
    FollowsQuietly(s, OnLog(s, line), now);
    FollowsQuietly(s, OnByteCount(s, reading), now);
  }

  // ---- every step of every run ----

  /** A connect call that is not refused. */
  predicate Connects(y: System, a: Action) {
    a.ConnectA? && Next(y, a).s.attempt == y.s.attempt + 1
  }

  /** A `disconnect` past its first block, or a worker tearing its daemon down, raises the stop flag. */
  predicate Stops(y: System, a: Action) {
    || (a.FlagA? && y.toFlag > 0)
    || (a.WorkerA? && a.worker in y.workers && y.workers[a.worker] == AbortFlag)
  }

  function When(a: Action): int {
    match a
    case FlagA(_) => 0
    case LogA(_) => 0
    case BytesA(_) => 0
    case _ => a.now
  }

  lemma OperatorFollows(y: System, a: Action)
    requires FromOperator(a) && !Stops(y, a)
    ensures Connects(y, a) || Follows(y.s, OperatorNext(y, a).s, When(a))
  {
    FollowsQuietly(y.s, y.s, When(a));
    hide Follows, Start, BeginDisconnect, FinishDisconnect;
    match a
    case ConnectA(profile, _, now) =>
    case DisconnectA(_, now) => DisconnectFollows(y.s, now);
    case FlagA(_) =>
    case FinishA(now) => DisconnectFollows(y.s, now);
  }

  lemma EventFollows(s: State, a: Action)
    requires !FromOperator(a) && !a.WorkerA?
    ensures Follows(s, EventState(s, a), When(a))
  {
    hide Follows, OnState, OnPasswordNeeded, OnVerificationFailed, OnSocketClosed, Fail, OnLog, OnByteCount;
    match a
    case StateA(name, now) => StateFollows(s, name, now);
    case NeedA(sent, now) => PromptFollows(s, sent, now);
    case RejectedA(now) => RejectionFollows(s, now);
    case ClosedA(now) => ClosedFollows(s, now);
    case FatalA(message, now) => FailFollows(s, message, now);
    case LogA(line) => HistoryFollows(s, line, Reading(0.0, 0, 0), 0);
    case BytesA(reading) => HistoryFollows(s, "", reading, 0);
  }

  lemma WorkerFollows(s: State, pc: Pc, a: Action)
    requires a.WorkerA? && pc != AbortFlag
    ensures Follows(s, WorkerState(s, pc, a), a.now)
  {
    hide Follows, Fail;
    if pc == Failing && s.attempt == a.worker {
      FailFollows(s, a.message, a.now);
    } else {
      FollowsQuietly(s, WorkerState(s, pc, a), a.now);
    }
  }

  /**
   Every step of every run: a new attempt clears the flags and is not an event; a raised stop flag changes nothing
   else; and every other step appends exactly the UP or DOWN its change of phase calls for, and marks or closes the
   session's row as it does.
   */
  lemma EveryStepFollows(y: System, a: Action)
    ensures var s' := Next(y, a).s;
            if Connects(y, a) then
              && s'.status.state == STARTING && !s'.notifiedUp && !s'.shutdownRequested
              && s'.trace == y.s.trace + [ConnectMark] && s'.history.tables.events == y.s.history.tables.events
            else if Stops(y, a) then s' == y.s.(shutdownRequested := true, trace := y.s.trace + [StopMark])
            else Follows(y.s, s', When(a))
  {
    hide Follows, OperatorNext, EventState, WorkerState;
    if Connects(y, a) {
      ConnectTells(y, a);
    } else if Stops(y, a) {
      StopTells(y, a);
    } else if FromOperator(a) {
      OperatorFollows(y, a);
    } else if a.WorkerA? {
      FollowsQuietly(y.s, y.s, a.now);
      if a.worker in y.workers {
        WorkerFollows(y.s, y.workers[a.worker], a);
      }
    } else {
      EventFollows(y.s, a);
    }
  }

  lemma ConnectTells(y: System, a: Action)
    requires Connects(y, a)
    ensures var s' := Next(y, a).s;
            && s'.status.state == STARTING && !s'.notifiedUp && !s'.shutdownRequested
            && s'.trace == y.s.trace + [ConnectMark] && s'.history.tables.events == y.s.history.tables.events
  {
    ControllerHistory.StartEvents(y.s.history, Some(a.profile), a.now);
    hide Start;
  }

  lemma StopTells(y: System, a: Action)
    requires Stops(y, a)
    ensures Next(y, a).s == y.s.(shutdownRequested := true, trace := y.s.trace + [StopMark])
  {
  }

  // ---- which phase an event leads to ----

  predicate Nonempty(error: Option<string>) {
    error.Some? && error.value != ""
  }

  /** A reported state: CONNECTED clears the error, an exit fails if and only if there is one, and any other restarts. */
  lemma ReportedPhase(s: State, name: string, now: int)
    ensures var (st, st') := (s.status, OnState(s, name, now).status);
            if name == "CONNECTED" then
              st' == Status(CONNECTED, None, if st.connectedSince.Some? then st.connectedSince else Some(now), st.profile)
            else if name == "EXITING" then
              st' == Status(if Nonempty(st.error) then FAILED else DISCONNECTED, st.error, None, st.profile)
            else st' == st.(state := if st.state in {DISCONNECTED, CONNECTED, FAILED} then CONNECTING else st.state)
    ensures name == "CONNECTED" || name == "EXITING" ==> OnState(s, name, now).settled
  {
    hide Written, Record;
  }

  /** A closed socket: an attempt under way has failed, a tunnel that stood has failed only if there is an error. */
  lemma ClosedPhase(s: State, now: int)
    ensures var (st, s') := (s.status, OnSocketClosed(s, now));
            && s'.client == None && s'.settled && s'.authPrompt
            && s'.status.connectedSince == None && s'.status.profile == st.profile
            && s'.status.state == (if st.state in {STARTING, AUTHENTICATING, CONNECTING} then FAILED
                                   else if st.state in {CONNECTED, DISCONNECTING} then (if Nonempty(st.error) then FAILED else DISCONNECTED)
                                   else st.state)
            && s'.status.error == (if st.state in {STARTING, AUTHENTICATING, CONNECTING} && !Nonempty(st.error)
                                   then Some("OpenVPN exited before the tunnel came up.") else st.error)
  {
    hide Written, Record;
  }

  lemma FailedPhase(s: State, message: string, now: int)
    ensures var s' := Fail(s, message, now);
            && s'.status == s.status.(state := FAILED, error := Some(message), connectedSince := None)
            && s'.settled && s'.authPrompt && s'.pendingSecret == s.pendingSecret && s'.client == s.client
  {
    hide Written, Record;
  }

  /** A prompt is answered only with a client and a pending secret, and without them the attempt fails. */
  lemma PromptedPhase(s: State, sent: bool, now: int)
    ensures var (s', answered) := (OnPasswordNeeded(s, sent, now), s.client.Some? && s.pendingSecret.Some? && sent);
            && s'.authPrompt
            && (answered ==> s'.status == s.status && s'.pendingSecret == None)
            && (!answered ==> s'.status.state == FAILED && Nonempty(s'.status.error) && s'.settled)
            && (s.client.None? ==> s'.pendingSecret == s.pendingSecret)
            && (s.client.Some? ==> s'.pendingSecret == None)
  {
    FailedPhase(s, "OpenVPN asked for credentials but none were pending.", now);
    FailedPhase(s, "Could not submit credentials", now);
    hide Fail;
  }

  lemma RejectedPhase(s: State, now: int)
    ensures var s' := OnVerificationFailed(s, now);
            s'.status.state == FAILED && s'.status.connectedSince == None && Nonempty(s'.status.error) && s'.authPrompt && s'.settled
  {
    FailedPhase(s.(authPrompt := true), "Authentication rejected -- check the authenticator code and try again.", now);
    hide Fail;
  }

  /** What a call of the operator leads to, and when it is refused and changes nothing. */
  lemma OperatorPhase(y: System, a: Action)
    requires a.ConnectA? || a.DisconnectA? || (a.FlagA? && y.toFlag > 0) || (a.FinishA? && y.toFinish > 0)
    ensures var (st, y') := (y.s.status, Next(y, a));
            match a
            case ConnectA(profile, running, _) =>
              if running || st.state in {STARTING, AUTHENTICATING, CONNECTING, CONNECTED, DISCONNECTING} then y' == y
              else
                && y'.s.status == Status(STARTING, None, None, Some(profile)) && y'.s.attempt == y.s.attempt + 1
                && !y'.s.settled && !y'.s.authPrompt && y'.workers == y.workers[y.s.attempt + 1 := Launch]
            case DisconnectA(running, _) =>
              if st.state == DISCONNECTED && !running then y' == y
              else y'.s.status == st.(state := DISCONNECTING, error := None) && y'.toFlag == y.toFlag + 1
            case FlagA(fallsBack) =>
              && y'.s == y.s.(shutdownRequested := true, trace := y.s.trace + [StopMark])
              && y'.toFlag == y.toFlag - 1 && y'.toFinish == (if fallsBack then y.toFinish + 1 else y.toFinish)
            case _ => y'.s.status == Status(DISCONNECTED, None, None, None) && y'.toFinish == y.toFinish - 1
  {
    hide Written, Record, Start;
  }

  // ---- a worker by itself ----

  /** The worker of the current attempt stands at `pc` while the shared state is this. */
  ghost predicate On(y: System, pc: Pc, phase: Phase, client: Option<nat>, secret: Option<string>, prompt: bool, settled: bool) {
    && y.s.attempt in y.workers && y.workers[y.s.attempt] == pc
    && y.s.status.state == phase && y.s.client == client && y.s.pendingSecret == secret
    && y.s.authPrompt == prompt && y.s.settled == settled
  }

  function Thrice(y: System, a: Action): System {
    Next(Next(Next(y, a), a), a)
  }

  ghost predicate SameCoreOf(y: System, y': System) {
    SameCore(y.s, y'.s) && y'.s.attempt == y.s.attempt
  }

  /** Up to the prompt: a client, AUTHENTICATING, and the secret laid ready. */
  lemma WorkerArms(y: System, socket: nat, secret: string, client: Option<nat>, left: Option<string>)
    requires On(y, Launch, STARTING, client, left, false, false)
    ensures var a := WorkerA(y.s.attempt, false, secret, socket, "", 0);
            var armed := Thrice(y, a);
            On(armed, Armed, AUTHENTICATING, Some(socket), Some(secret), false, false) && SameCoreOf(y, armed)
  {
    hide Fail, RaiseStop;
  }

  /** Once the prompt is answered: CONNECTING. */
  lemma WorkerContinues(y: System, socket: nat)
    requires On(y, Armed, AUTHENTICATING, Some(socket), None, true, false)
    ensures var a := WorkerA(y.s.attempt, false, "", 0, "", 0);
            var negotiating := Thrice(y, a);
            On(negotiating, Negotiating, CONNECTING, Some(socket), None, true, false) && SameCoreOf(y, negotiating)
  {
    hide Fail, RaiseStop;
  }

  /** And once the tunnel stands: it ends, and the secret with it. */
  lemma WorkerEnds(y: System, client: Option<nat>, secret: Option<string>)
    requires On(y, Negotiating, CONNECTED, client, secret, true, true)
    ensures var a := WorkerA(y.s.attempt, false, "", 0, "", 0);
            var ended := Thrice(y, a);
            On(ended, Done, CONNECTED, client, None, true, true) && SameCoreOf(y, ended)
  {
    hide Fail, RaiseStop;
  }

  lemma PromptAnswered(y: System, client: nat, secret: string, now: int)
    requires On(y, Armed, AUTHENTICATING, Some(client), Some(secret), false, false)
    ensures var y' := Next(y, NeedA(true, now));
            On(y', Armed, AUTHENTICATING, Some(client), None, true, false) && SameCoreOf(y, y')
  {
  }

  lemma TunnelStands(y: System, client: nat, now: int)
    requires On(y, Negotiating, CONNECTING, Some(client), None, true, false) && !y.s.notifiedUp
    ensures var y' := Next(y, StateA("CONNECTED", now));
            && On(y', Negotiating, CONNECTED, Some(client), None, true, true)
            && y'.s.trace == y.s.trace + [UpMark] && y'.s.attempt == y.s.attempt && y'.s.notifiedUp
  {
    hide Written, Record;
  }

  lemma AttemptBegins(y: System, profile: string, now: int)
    requires !Busy(y.s.status.state) && y.s.status.state != CONNECTED
    ensures var y' := Next(y, ConnectA(profile, false, now));
            && On(y', Launch, STARTING, y.s.client, y.s.pendingSecret, false, false)
            && y'.s.trace == y.s.trace + [ConnectMark] && y'.s.attempt == y.s.attempt + 1 && !y'.s.notifiedUp
  {
    hide Start;
  }

  /**
   From every state in which a connect call is not refused, an attempt can come up: the worker gets as far as the
   prompt, the prompt is answered with the secret, the tunnel is reported CONNECTED, and the worker ends without a
   secret left and with one UP recorded.
   */
  lemma AttemptComesUp(y: System, profile: string, socket: nat, secret: string, now: int)
    requires !Busy(y.s.status.state) && y.s.status.state != CONNECTED
    ensures var (w, started) := (y.s.attempt + 1, Next(y, ConnectA(profile, false, now)));
            var answered := Next(Thrice(started, WorkerA(w, false, secret, socket, "", 0)), NeedA(true, now));
            var up := Next(Thrice(answered, WorkerA(w, false, "", 0, "", 0)), StateA("CONNECTED", now));
            var ended := Thrice(up, WorkerA(w, false, "", 0, "", 0));
            && On(ended, Done, CONNECTED, Some(socket), None, true, true)
            && ended.s.trace == y.s.trace + [ConnectMark] + [UpMark] && ended.s.notifiedUp
  {
    hide Next, Thrice, On;
    var w, started := y.s.attempt + 1, Next(y, ConnectA(profile, false, now));
    AttemptBegins(y, profile, now);
    WorkerArms(started, socket, secret, y.s.client, y.s.pendingSecret);
    var armed := Thrice(started, WorkerA(w, false, secret, socket, "", 0));
    PromptAnswered(armed, socket, secret, now);
    var answered := Next(armed, NeedA(true, now));
    WorkerContinues(answered, socket);
    var negotiating := Thrice(answered, WorkerA(w, false, "", 0, "", 0));
    TunnelStands(negotiating, socket, now);
    WorkerEnds(Next(negotiating, StateA("CONNECTED", now)), Some(socket), None);
  }

  /** A worker that fails leaves FAILED with its message, the daemon told to stop, and no secret. */
  lemma WorkerGivesUp(y: System, message: string, now: int)
    requires y.s.attempt in y.workers && y.workers[y.s.attempt] == Failing
    ensures var a := WorkerA(y.s.attempt, true, "", 0, message, now);
            var given := Next(Next(Next(Next(y, a), a), a), a);
            && given.workers[y.s.attempt] == Done && given.s.pendingSecret == None && given.s.shutdownRequested
            && given.s.status == y.s.status.(state := FAILED, error := Some(message), connectedSince := None)
  {
    FailedPhase(y.s, message, now);
    FailKeepsAttempt(y.s, message, now);
    hide Fail;
  }

  lemma FailKeepsAttempt(s: State, message: string, now: int)
    ensures Fail(s, message, now).attempt == s.attempt
  {
    hide Written, Record;
  }

  // ---- over every run ----

  /** An attempt stands FAILED only with a message, DISCONNECTED or CONNECTED only without one. */
  ghost predicate ErrorDecides(s: State) {
    && (s.status.state == DISCONNECTED || s.status.state == CONNECTED ==> !Nonempty(s.status.error))
    && (s.status.state == FAILED ==> s.status.error.Some?)
  }

  lemma EventDecides(s: State, a: Action)
    requires !FromOperator(a) && !a.WorkerA? && ErrorDecides(s)
    ensures ErrorDecides(EventState(s, a))
  {
    hide OnState, OnPasswordNeeded, OnVerificationFailed, OnSocketClosed, Fail, Append, Sample;
    match a
    case StateA(name, now) => ReportedPhase(s, name, now);
    case NeedA(sent, now) => PromptedPhase(s, sent, now);
    case RejectedA(now) => RejectedPhase(s, now);
    case ClosedA(now) => ClosedPhase(s, now);
    case FatalA(message, now) => FailedPhase(s, message, now);
    case LogA(line) =>
    case BytesA(reading) =>
  }

  lemma OperatorDecides(y: System, a: Action)
    requires FromOperator(a) && ErrorDecides(y.s)
    ensures ErrorDecides(OperatorNext(y, a).s)
  {
    var s, now := y.s, When(a);
    AnnouncedStatus(s.(status := s.status.(state := DISCONNECTING, error := None)), s.status.state, now);
    AnnouncedStatus(s.(status := Status(DISCONNECTED, None, None, None)), s.status.state, now);
    hide Announced, Start;
  }

  lemma NextDecides(y: System, a: Action)
    requires ErrorDecides(y.s)
    ensures ErrorDecides(Next(y, a).s)
  {
    hide ErrorDecides, OperatorNext, EventState, WorkerState;
    if FromOperator(a) {
      OperatorDecides(y, a);
    } else if a.WorkerA? {
      if a.worker in y.workers {
        WorkerDecides(y.s, y.workers[a.worker], a);
      }
    } else {
      EventDecides(y.s, a);
    }
  }

  lemma WorkerDecides(s: State, pc: Pc, a: Action)
    requires a.WorkerA? && ErrorDecides(s)
    ensures ErrorDecides(WorkerState(s, pc, a))
  {
    FailedPhase(s, a.message, a.now);
    hide Fail;
  }

  lemma NextTells(y: System, a: Action)
    requires y.s.status.state == CONNECTED ==> y.s.notifiedUp
    ensures Next(y, a).s.status.state == CONNECTED ==> Next(y, a).s.notifiedUp
  {
    EveryStepFollows(y, a);
    hide Next, Closes;
  }

  /** After every run a tunnel that stands has been announced, and an attempt has failed only with a message. */
  lemma {:induction false} EveryRunTells(b: Beginning, actions: seq<Action>)
    ensures var s := RunAll(ControllerHistory.First(b), actions).s;
            ErrorDecides(s) && (s.status.state == CONNECTED ==> s.notifiedUp)
  {
    if actions == [] {
      FirstTells(b);
    } else {
      var before := RunAll(ControllerHistory.First(b), actions[..|actions| - 1]);
      EveryRunTells(b, actions[..|actions| - 1]);
      hide Next, ErrorDecides;
      NextDecides(before, actions[|actions| - 1]);
      NextTells(before, actions[|actions| - 1]);
    }
  }

  lemma {:induction false} FoldDecides(s: State, names: seq<string>, now: int)
    requires ErrorDecides(s)
    ensures ErrorDecides(FoldStates(s, names, now))
  {
    if names == [] {
    } else {
      FoldDecides(s, names[..|names| - 1], now);
      ReportedPhase(FoldStates(s, names[..|names| - 1], now), names[|names| - 1], now);
      hide OnState;
    }
  }

  lemma FirstTells(b: Beginning)
    ensures var s := ControllerHistory.First(b).s;
            ErrorDecides(s) && (s.status.state == CONNECTED ==> s.notifiedUp)
  {
    if b.Attached? {
      FoldDecides(Adopted(Begin(b.tables).s, b.client, b.now), b.names, b.now);
      hide FoldStates, Start;
    }
  }

  /**
   Over every run from start-up or from an attach: the step that ends a tunnel that stands appends exactly one DOWN,
   with the reason the stop flag gives.
   */
  lemma StandingTunnelIsToldDown(b: Beginning, actions: seq<Action>, a: Action)
    requires var y := RunAll(ControllerHistory.First(b), actions);
             y.s.status.state == CONNECTED && Next(y, a).s.status.state in {DISCONNECTED, FAILED}
    ensures var (s, s') := (RunAll(ControllerHistory.First(b), actions).s, Next(RunAll(ControllerHistory.First(b), actions), a).s);
            && s'.trace == s.trace + [DownMark(if s.shutdownRequested then "operator-requested" else "link-lost")]
            && !s'.notifiedUp && !s'.shutdownRequested
  {
    EveryRunTells(b, actions);
    EveryStepFollows(RunAll(ControllerHistory.First(b), actions), a);
    hide Next, RunAll, Closes, ControllerHistory.First;
  }

  /** The operator's last word of the attempt under way is that the tunnel is up. */
  predicate ToldUp(trace: seq<Mark>) {
    trace != [] &&
    var m := trace[|trace| - 1];
    m.UpMark? || (m.StopMark? && ToldUp(trace[..|trace| - 1]))
  }

  lemma ToldUpSnoc(trace: seq<Mark>, m: Mark)
    ensures ToldUp(trace + [m]) <==> m.UpMark? || (m.StopMark? && ToldUp(trace))
  {
    assert (trace + [m])[..|trace|] == trace;
  }

  lemma NextMarks(y: System, a: Action)
    requires y.s.notifiedUp == ToldUp(y.s.trace)
    ensures Next(y, a).s.notifiedUp == ToldUp(Next(y, a).s.trace)
  {
    EveryStepFollows(y, a);
    ToldUpSnoc(y.s.trace, ConnectMark);
    ToldUpSnoc(y.s.trace, StopMark);
    ToldUpSnoc(y.s.trace, UpMark);
    ToldUpSnoc(y.s.trace, DownMark(Why(y.s)));
    assert y.s.trace + [] == y.s.trace;
    hide Next, Closes, ToldUp, Connects, Stops, Why;
  }

  lemma {:induction false} FlagIsTrace(t: Tables, actions: seq<Action>)
    ensures var s := RunAll(Begin(t), actions).s; s.notifiedUp == ToldUp(s.trace)
  {
    if actions == [] {
    } else {
      FlagIsTrace(t, actions[..|actions| - 1]);
      hide Next, ToldUp;
      NextMarks(RunAll(Begin(t), actions[..|actions| - 1]), actions[|actions| - 1]);
    }
  }

  /**
   Over every run from start-up, in terms of what the operator was told before: the step into DISCONNECTED or FAILED
   appends a DOWN if and only if the last word was that the tunnel is up and the attempt was CONNECTED or
   DISCONNECTING, with the reason by whether a stop flag stands; otherwise it appends nothing.
   */
  lemma DownExactly(t: Tables, actions: seq<Action>, a: Action)
    requires ReasonsNeedConnection(t.sessions)
    requires var y := RunAll(Begin(t), actions);
             Next(y, a).s.status.state in {DISCONNECTED, FAILED} && Next(y, a).s.status.state != y.s.status.state
    ensures var (s, s') := (RunAll(Begin(t), actions).s, Next(RunAll(Begin(t), actions), a).s);
            s'.trace == s.trace + if ToldUp(s.trace) && s.status.state in {CONNECTED, DISCONNECTING}
                                  then [DownMark(if StopPending(s.trace) then "operator-requested" else "link-lost")] else []
  {
    var y := RunAll(Begin(t), actions);
    FlagIsTrace(t, actions);
    StartsAlways(t, 0, [], 0);
    AlwaysHolds(Begin(t), actions);
    EveryStepFollows(y, a);
    hide Next, RunAll, Closes, ToldUp, RowsOk, SettledOk, Begin, ReasonsTrue, StopPending, Attach;
  }

  lemma RunNext(y: System, actions: seq<Action>, a: Action)
    ensures RunAll(y, actions + [a]) == Next(RunAll(y, actions), a)
  {
    hide Next;
    assert (actions + [a])[..|actions|] == actions;
  }

  lemma RunOf(y: System, a: Action)
    ensures RunAll(y, [a]) == Next(y, a)
  {
    RunNext(y, [], a);
    assert [] + [a] == [a];
    hide Next;
  }

  lemma NextOfEvent(y: System, a: Action)
    requires a.StateA? || a.ClosedA?
    ensures Next(y, a).s == if a.StateA? then OnState(y.s, a.name, a.now) else OnSocketClosed(y.s, a.now)
  {
    hide OnState, OnSocketClosed;
  }

  lemma FirstAttempt(profile: string)
    ensures var y := Next(Begin(Tables([], [], [], [])), ConnectA(profile, false, 0));
            At(y.s, STARTING, false, [ConnectMark], SessionRow(1, Some(profile), 0, None, None, "", ""))
  {
    var row := SessionRow(1, Some(profile), 0, None, None, "", "");
    assert [row][..0] == [];
    assert Filter([row], InWindow(-RETENTION_SECONDS)) == [row];
  }

  /** The rows of a table with one row, the current session's. */
  lemma OnlyRow(s: State, s': State, now: int)
    requires Closes(s, s', now) && |s.history.tables.sessions| == 1
    ensures s'.history.tables.sessions == [RowAfter(s.history.tables.sessions[0], s, s'.status.state, now)]
  {
    hide RowAfter;
  }

  /** One attempt, alone in the table. */
  ghost predicate At(s: State, phase: Phase, up: bool, trace: seq<Mark>, row: SessionRow) {
    && s.status.state == phase && s.notifiedUp == up && s.trace == trace
    && s.history.tables.sessions == [row] && (phase != FAILED ==> s.history.session == Some(row.id))
  }

  lemma ComesUp(s: State, row: SessionRow)
    requires At(s, STARTING, false, [ConnectMark], row) && row.connectedAt == None
    ensures At(OnState(s, "CONNECTED", 1), CONNECTED, true, [ConnectMark, UpMark], row.(connectedAt := Some(1)))
  {
    ReportedPhase(s, "CONNECTED", 1);
    StateFollows(s, "CONNECTED", 1);
    assert [ConnectMark] + [UpMark] == [ConnectMark, UpMark];
    hide OnState, Closes;
    OnlyRow(s, OnState(s, "CONNECTED", 1), 1);
  }

  lemma Reconnects(s: State, row: SessionRow, trace: seq<Mark>)
    requires At(s, CONNECTED, true, trace, row)
    ensures At(OnState(s, "RECONNECTING", 2), CONNECTING, true, trace, row)
  {
    ReportedPhase(s, "RECONNECTING", 2);
    StateFollows(s, "RECONNECTING", 2);
    assert OnState(s, "RECONNECTING", 2).history.session == s.history.session;
    hide OnState, Closes;
    OnlyRow(s, OnState(s, "RECONNECTING", 2), 2);
  }

  lemma EndsUntold(s: State, row: SessionRow, trace: seq<Mark>)
    requires At(s, CONNECTING, true, trace, row)
    ensures At(OnSocketClosed(s, 3), FAILED, true, trace, row.(endedAt := Some(3), outcome := "failed", reason := ""))
  {
    ClosedPhase(s, 3);
    ClosedFollows(s, 3);
    hide OnSocketClosed, Closes;
    OnlyRow(s, OnSocketClosed(s, 3), 3);
  }

  /**
   So a tunnel that has come up and is reconnecting when its process ends is not told down, and its row gives no
   reason: the phase before the end is CONNECTING, as of an attempt that never came up.
   */
  lemma ReconnectingEndsUntold(profile: string)
    ensures var actions := [ConnectA(profile, false, 0)] + [StateA("CONNECTED", 1)] + [StateA("RECONNECTING", 2)] + [ClosedA(3)];
            var s := RunAll(Begin(Tables([], [], [], [])), actions).s;
            && s.status.state == FAILED && s.trace == [ConnectMark, UpMark]
            && s.history.tables.sessions == [SessionRow(1, Some(profile), 0, Some(1), Some(3), "failed", "")]
  {
    var y := Begin(Tables([], [], [], []));
    var a1: seq<Action> := [ConnectA(profile, false, 0)];
    var a2 := a1 + [StateA("CONNECTED", 1)];
    var a3 := a2 + [StateA("RECONNECTING", 2)];
    hide *;
    RunOf(y, ConnectA(profile, false, 0));
    RunNext(y, a1, StateA("CONNECTED", 1));
    RunNext(y, a2, StateA("RECONNECTING", 2));
    RunNext(y, a3, ClosedA(3));
    NextOfEvent(RunAll(y, a1), StateA("CONNECTED", 1));
    NextOfEvent(RunAll(y, a2), StateA("RECONNECTING", 2));
    NextOfEvent(RunAll(y, a3), ClosedA(3));
    FirstAttempt(profile);
    var row := SessionRow(1, Some(profile), 0, None, None, "", "");
    var up := row.(connectedAt := Some(1));
    ComesUp(RunAll(y, a1).s, row);
    Reconnects(RunAll(y, a2).s, up, [ConnectMark, UpMark]);
    EndsUntold(RunAll(y, a3).s, up, [ConnectMark, UpMark]);
    AtEnd(RunAll(y, a3 + [ClosedA(3)]).s, [ConnectMark, UpMark], up.(endedAt := Some(3), outcome := "failed", reason := ""));
  }

  lemma AtEnd(s: State, trace: seq<Mark>, row: SessionRow)
    requires At(s, FAILED, true, trace, row)
    ensures s.status.state == FAILED && s.trace == trace && s.history.tables.sessions == [row]
  {
  }
}
