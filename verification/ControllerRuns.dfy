/**
 Every interleaving of operator calls, worker threads and management events over the controller's state, and
 what holds throughout.
 */
module ControllerRuns {
  import opened Options
  import opened Store
  import opened Tails
  import opened HistoryLog
  import opened Controller
  import Sessions

  /** Where a connect worker stands. */
  datatype Pc =
    | Launch | Opened | Ready | Armed | Prompted | Checked | Negotiating | Settled
    | Failing | AbortCheck | AbortFlag | Cleanup | Done

  /** The shared state, the worker of each attempt, and how many `disconnect` calls are at each later step. */
  datatype System = System(s: State, workers: map<nat, Pc>, toFlag: nat, toFinish: nat)

  datatype Action =
    | ConnectA(profile: string, running: bool, now: int)
    | DisconnectA(running: bool, now: int)
    | FlagA(fallsBack: bool)
    | FinishA(now: int)
    | StateA(name: string, now: int)
    | NeedA(sent: bool, now: int)
    | RejectedA(now: int)
    | ClosedA(now: int)
    | FatalA(message: string, now: int)
    | LogA(line: string)
    | BytesA(reading: Reading)
    | WorkerA(worker: nat, fails: bool, secret: string, socket: nat, message: string, now: int)

  function WorkerState(s: State, pc: Pc, a: Action): State
    requires a.WorkerA?
  {
    match pc
    case Launch => if a.fails then s else s.(client := Some(a.socket))
    case Opened => if a.fails then s else Advance(s, AUTHENTICATING)
    case Ready => if a.fails then s else s.(pendingSecret := Some(a.secret))
    case Checked => if a.fails then s else Advance(s, CONNECTING)
    case Failing => FailUnlessSuperseded(s, a.worker, a.message, a.now)
    case AbortFlag => RaiseStop(s)
    case Cleanup => ClearSecret(s, a.worker)
    case _ => s
  }

  function WorkerPc(s: State, pc: Pc, a: Action): Pc
    requires a.WorkerA?
  {
    match pc
    case Launch => if a.fails then Failing else Opened
    case Opened => if a.fails then Failing else Ready
    case Ready => if a.fails then Failing else Armed
    case Armed => if a.fails then Failing else if s.authPrompt then Prompted else Armed
    case Prompted => if s.status.state == FAILED then Failing else Checked
    case Checked => if a.fails then Failing else Negotiating
    case Negotiating => if a.fails then Failing else if s.settled then Settled else Negotiating
    case Settled => if s.status.state == FAILED then Failing else Cleanup
    case Failing => if s.attempt != a.worker then Cleanup else AbortCheck
    case AbortCheck => if s.status.state == CONNECTED then Cleanup else AbortFlag
    case AbortFlag => Cleanup
    case Cleanup => Done
    case Done => Done
  }

  predicate FromOperator(a: Action) {
    a.ConnectA? || a.DisconnectA? || a.FlagA? || a.FinishA?
  }

  /** A step of a `connect` or `disconnect` call; one that is refused changes nothing. */
  function OperatorNext(y: System, a: Action): System
    requires FromOperator(a)
  {
    match a
    case ConnectA(profile, running, now) =>
      if Busy(y.s.status.state) || y.s.status.state == CONNECTED || running then y
      else y.(s := Connect(y.s, profile, now), workers := y.workers[y.s.attempt + 1 := Launch])
    case DisconnectA(running, now) =>
      if y.s.status.state == DISCONNECTED && !running then y
      else y.(s := BeginDisconnect(y.s, now), toFlag := y.toFlag + 1)
    case FlagA(fallsBack) =>
      if y.toFlag == 0 then y
      else y.(s := RaiseStop(y.s), toFlag := y.toFlag - 1, toFinish := y.toFinish + if fallsBack then 1 else 0)
    case FinishA(now) =>
      if y.toFinish == 0 then y else y.(s := FinishDisconnect(y.s, now), toFinish := y.toFinish - 1)
  }

  /** A management event. */
  function EventState(s: State, a: Action): State
    requires !FromOperator(a) && !a.WorkerA?
  {
    match a
    case StateA(name, now) => OnState(s, name, now)
    case NeedA(sent, now) => OnPasswordNeeded(s, sent, now)
    case RejectedA(now) => OnVerificationFailed(s, now)
    case ClosedA(now) => OnSocketClosed(s, now)
    case FatalA(message, now) => Fail(s, message, now)
    case LogA(line) => OnLog(s, line)
    case BytesA(reading) => OnByteCount(s, reading)
  }

  function WorkerNext(y: System, a: Action): System
    requires a.WorkerA?
  {
    if a.worker !in y.workers then y
    else y.(s := WorkerState(y.s, y.workers[a.worker], a),
            workers := y.workers[a.worker := WorkerPc(y.s, y.workers[a.worker], a)])
  }

  function Next(y: System, a: Action): System {
    if FromOperator(a) then OperatorNext(y, a)
    else if a.WorkerA? then WorkerNext(y, a)
    else y.(s := EventState(y.s, a))
  }

  function RunAll(y: System, actions: seq<Action>): System {
    if actions == [] then y else Next(RunAll(y, actions[..|actions| - 1]), actions[|actions| - 1])
  }

  function Begin(t: Tables): System {
    System(Idle(Fresh(t)), map[], 0, 0)
  }

  // ---- the event log ----

  /** The last UP or DOWN, passing over the other marks. */
  function LastEvent(trace: seq<Mark>): Option<Mark> {
    if trace == [] then None
    else
      var m := trace[|trace| - 1];
      if m.UpMark? || m.DownMark? then Some(m) else LastEvent(trace[..|trace| - 1])
  }

  /** A stop flag stands: it was raised after the last attempt began and after the last DOWN. */
  predicate StopPending(trace: seq<Mark>) {
    trace != [] &&
    var m := trace[|trace| - 1];
    m.StopMark? || (m.UpMark? && StopPending(trace[..|trace| - 1]))
  }

  /** Every DOWN directly follows an UP in the event log. */
  ghost predicate DownsFollowUps(trace: seq<Mark>) {
    forall i :: 0 <= i < |trace| && trace[i].DownMark? ==> LastEvent(trace[..i]) == Some(UpMark)
  }

  /** Every DOWN gives its true reason. */
  ghost predicate ReasonsTrue(trace: seq<Mark>) {
    forall i :: 0 <= i < |trace| && trace[i].DownMark? ==>
      trace[i].reason == if StopPending(trace[..i]) then REQUESTED else LINK_LOST
  }

  ghost predicate FlagOk(s: State) {
    ReasonsTrue(s.trace) && s.shutdownRequested == StopPending(s.trace)
  }

  ghost predicate EventsOk(s: State) {
    DownsFollowUps(s.trace) && (s.notifiedUp ==> LastEvent(s.trace) == Some(UpMark))
  }

  lemma AppendMark(trace: seq<Mark>, m: Mark)
    ensures LastEvent(trace + [m]) == if m.UpMark? || m.DownMark? then Some(m) else LastEvent(trace)
    ensures StopPending(trace + [m]) <==> m.StopMark? || (m.UpMark? && StopPending(trace))
    ensures DownsFollowUps(trace) && (m.DownMark? ==> LastEvent(trace) == Some(UpMark)) ==> DownsFollowUps(trace + [m])
    ensures ReasonsTrue(trace) && (m.DownMark? ==> m.reason == if StopPending(trace) then REQUESTED else LINK_LOST)
            ==> ReasonsTrue(trace + [m])
  {
    var more := trace + [m];
    assert more[..|trace|] == trace;
    assert forall i :: 0 <= i <= |trace| ==> more[..i] == trace[..i];
  }

  // ---- the rows ----

  ghost predicate ReasonsNeedConnection(rows: seq<SessionRow>) {
    forall i :: 0 <= i < |rows| ==> Sessions.ReasonNeedsConnection(rows[i])
  }

  /** The rows of the current attempt (there is one) are marked connected. */
  ghost predicate CurrentConnected(h: Recorder) {
    forall i :: 0 <= i < |h.tables.sessions| && h.session == Some(h.tables.sessions[i].id) ==>
      h.tables.sessions[i].connectedAt.Some?
  }

  ghost predicate RowsOk(s: State) {
    ReasonsNeedConnection(s.history.tables.sessions) && (s.notifiedUp ==> CurrentConnected(s.history))
  }

  lemma FlushRows(h: Recorder)
    ensures Flush(h).tables.sessions == h.tables.sessions && Flush(h).session == h.session
  {
  }

  lemma MarkRows(h: Recorder, now: int)
    requires ReasonsNeedConnection(h.tables.sessions)
    ensures ReasonsNeedConnection(MarkConnected(h, now).tables.sessions)
    ensures CurrentConnected(MarkConnected(h, now))
  {
  }

  lemma EndRows(h: Recorder, outcome: string, reason: string, now: int)
    requires ReasonsNeedConnection(h.tables.sessions)
    requires reason == "" || CurrentConnected(h)
    ensures ReasonsNeedConnection(End(h, outcome, reason, now).tables.sessions)
    ensures CurrentConnected(End(h, outcome, reason, now))
  {
    FlushRows(h);
    hide Flush;
  }

  lemma StartRows(h: Recorder, connection: Option<string>, now: int)
    requires ReasonsNeedConnection(h.tables.sessions)
    ensures ReasonsNeedConnection(Start(h, connection, now).tables.sessions)
  {
    EndRows(h, "interrupted", "", now);
    var closed := End(h, "interrupted", "", now).tables;
    hide End;
    var inserted := Started(closed, connection, now).sessions;
    assert ReasonsNeedConnection(inserted);
    var kept := Store.Kept(inserted, now - RETENTION_SECONDS, KEEP_SESSIONS);
    assert Start(h, connection, now).tables.sessions == kept;
    forall i | 0 <= i < |kept|
      ensures Sessions.ReasonNeedsConnection(kept[i])
    {
      assert kept[i] in kept;
      var j :| 0 <= j < |inserted| && inserted[j] == kept[i];
    }
  }

  lemma OtherRows(h: Recorder, line: string, reading: Reading)
    ensures Append(h, line).tables.sessions == h.tables.sessions && Append(h, line).session == h.session
    ensures Sample(h, reading).tables.sessions == h.tables.sessions && Sample(h, reading).session == h.session
  {
  }

  /** What the announcement writes keeps the rows in order, whichever way it goes. */
  lemma RecordedRows(s: State, before: Phase, now: int)
    requires RowsOk(s) && before != s.status.state
    ensures ReasonsNeedConnection(Recorded(s, before, now).tables.sessions)
    ensures s.status.state == CONNECTED ==> CurrentConnected(Recorded(s, before, now))
    ensures s.notifiedUp ==> CurrentConnected(Recorded(s, before, now))
  {
    var h := Flush(s.history);
    FlushRows(s.history);
    hide Flush, End, MarkConnected;
    assert s.notifiedUp ==> CurrentConnected(h);
    MarkRows(h, now);
    EndRows(h, if s.status.state == FAILED then "failed" else "disconnected", Reason(s, before), now);
  }

  lemma AnnouncedRows(s: State, before: Phase, now: int)
    requires RowsOk(s)
    ensures RowsOk(Announced(s, before, now))
  {
    if before != s.status.state {
      RecordedRows(s, before, now);
      hide Recorded, ReasonsNeedConnection;
    }
  }

  // ---- settled states ----

  ghost predicate SettledOk(s: State) {
    && (s.status.state == CONNECTED ==> s.status.connectedSince.Some? && s.status.error == None && s.settled)
    && (s.status.state == FAILED ==> s.settled)
  }

  // ---- every step keeps all of it ----

  /** The parts of the state the announcement works on. */
  ghost predicate SameCore(s: State, s': State) {
    && s'.trace == s.trace && s'.notifiedUp == s.notifiedUp && s'.shutdownRequested == s.shutdownRequested
    && s'.history == s.history
  }

  ghost predicate Carries(s: State, s': State) {
    && (FlagOk(s) ==> FlagOk(s'))
    && (EventsOk(s) ==> EventsOk(s'))
    && (RowsOk(s) ==> RowsOk(s'))
  }

  lemma SameCoreCarries(s: State, s': State)
    requires SameCore(s, s')
    ensures Carries(s, s')
  {
  }

  lemma AnnouncedMarks(s: State, before: Phase, now: int)
    ensures FlagOk(s) ==> FlagOk(Announced(s, before, now))
    ensures EventsOk(s) ==> EventsOk(Announced(s, before, now))
  {
    AppendMark(s.trace, UpMark);
    AppendMark(s.trace, DownMark(Reason(s, before)));
    hide DownsFollowUps, ReasonsTrue, LastEvent, StopPending, Recorded, Record;
  }

  /** A block that leaves the core alone, announced, and then some flags set. */
  lemma Tracked(s: State, changed: State, before: Phase, now: int, after: State)
    requires SameCore(s, changed) && SameCore(Announced(changed, before, now), after)
    ensures Carries(s, after)
  {
    SameCoreCarries(s, changed);
    AnnouncedMarks(changed, before, now);
    if RowsOk(changed) {
      AnnouncedRows(changed, before, now);
    }
    SameCoreCarries(Announced(changed, before, now), after);
    hide FlagOk, EventsOk, RowsOk, Announced;
  }

  lemma AnnouncedStatus(s: State, before: Phase, now: int)
    ensures var s' := Announced(s, before, now);
            && s'.status == s.status && s'.settled == s.settled && s'.pendingSecret == s.pendingSecret
            && s'.client == s.client && s'.attempt == s.attempt && s'.authPrompt == s.authPrompt
  {
  }

  lemma ConnectKeeps(s: State, profile: string, now: int)
    ensures Carries(s, Connect(s, profile, now)) && SettledOk(Connect(s, profile, now))
  {
    AppendMark(s.trace, ConnectMark);
    if RowsOk(s) {
      StartRows(s.history, Some(profile), now);
    }
    hide DownsFollowUps, ReasonsTrue, LastEvent, StopPending, Start, ReasonsNeedConnection, CurrentConnected;
  }

  lemma StopKeeps(s: State)
    ensures Carries(s, RaiseStop(s)) && (SettledOk(s) ==> SettledOk(RaiseStop(s)))
  {
    AppendMark(s.trace, StopMark);
    hide DownsFollowUps, ReasonsTrue, LastEvent, StopPending, ReasonsNeedConnection, CurrentConnected;
  }

  lemma DisconnectKeeps(s: State, now: int)
    ensures Carries(s, BeginDisconnect(s, now)) && SettledOk(BeginDisconnect(s, now))
    ensures Carries(s, FinishDisconnect(s, now)) && SettledOk(FinishDisconnect(s, now))
  {
    var m1 := s.(status := s.status.(state := DISCONNECTING, error := None));
    var m2 := s.(status := Status(DISCONNECTED, None, None, None));
    AnnouncedStatus(m1, s.status.state, now);
    AnnouncedStatus(m2, s.status.state, now);
    hide Announced, Carries;
    Tracked(s, m1, s.status.state, now, BeginDisconnect(s, now));
    Tracked(s, m2, s.status.state, now, FinishDisconnect(s, now));
  }

  lemma FailKeeps(s: State, message: string, now: int)
    ensures Carries(s, Fail(s, message, now)) && SettledOk(Fail(s, message, now))
    ensures Fail(s, message, now).pendingSecret == s.pendingSecret && Fail(s, message, now).attempt == s.attempt
  {
    var m := s.(status := s.status.(state := FAILED, error := Some(message), connectedSince := None));
    AnnouncedStatus(m, s.status.state, now);
    hide Announced, Carries;
    Tracked(s, m, s.status.state, now, Fail(s, message, now));
  }

  lemma StateKeeps(s: State, name: string, now: int)
    ensures Carries(s, OnState(s, name, now)) && (SettledOk(s) ==> SettledOk(OnState(s, name, now)))
    ensures OnState(s, name, now).pendingSecret == s.pendingSecret
  {
    var st := s.status;
    var st' :=
      if name == "CONNECTED" then
        st.(state := CONNECTED, error := None, connectedSince := Some(st.connectedSince.GetOr(now)))
      else if name == "EXITING" then
        st.(state := if HasError(st) then FAILED else DISCONNECTED, connectedSince := None)
      else if !Busy(st.state) then st.(state := CONNECTING)
      else st;
    var m := s.(status := st', settled := s.settled || name == "CONNECTED" || name == "EXITING");
    AnnouncedStatus(m, st.state, now);
    assert OnState(s, name, now) == Announced(m, st.state, now);
    hide Announced, Carries, OnState;
    Tracked(s, m, st.state, now, OnState(s, name, now));
  }

  lemma PromptKeeps(s: State, sent: bool, now: int)
    ensures Carries(s, OnPasswordNeeded(s, sent, now))
    ensures SettledOk(s) ==> SettledOk(OnPasswordNeeded(s, sent, now))
  {
    var none, send := "OpenVPN asked for credentials but none were pending.", "Could not submit credentials";
    FailKeeps(s, none, now);
    FailKeeps(s, send, now);
    SameCoreCarries(Fail(s, send, now), Fail(s, send, now).(pendingSecret := None));
    SameCoreCarries(s, s.(pendingSecret := None, authPrompt := true));
    hide FlagOk, EventsOk, RowsOk, Fail;
  }

  lemma RejectionKeeps(s: State, now: int)
    ensures Carries(s, OnVerificationFailed(s, now)) && SettledOk(OnVerificationFailed(s, now))
    ensures OnVerificationFailed(s, now).pendingSecret == s.pendingSecret
  {
    FailKeeps(s.(authPrompt := true), "Authentication rejected -- check the authenticator code and try again.", now);
    SameCoreCarries(s, s.(authPrompt := true));
    hide FlagOk, EventsOk, RowsOk, Fail;
  }

  lemma ClosedKeeps(s: State, now: int)
    ensures Carries(s, OnSocketClosed(s, now)) && SettledOk(OnSocketClosed(s, now))
    ensures OnSocketClosed(s, now).pendingSecret == s.pendingSecret
  {
    var st := s.status;
    var ended :=
      if st.state in {STARTING, AUTHENTICATING, CONNECTING} then
        st.(state := FAILED, error := if HasError(st) then st.error else Some("OpenVPN exited before the tunnel came up."))
      else if st.state in {CONNECTED, DISCONNECTING} then
        st.(state := if HasError(st) then FAILED else DISCONNECTED)
      else st;
    var m := s.(client := None, status := ended.(connectedSince := None));
    AnnouncedStatus(m, st.state, now);
    assert OnSocketClosed(s, now) == Announced(m, st.state, now).(settled := true, authPrompt := true);
    assert ended.state != CONNECTED;
    hide Announced, Carries, OnSocketClosed;
    Tracked(s, m, st.state, now, OnSocketClosed(s, now));
  }

  lemma HistoryKeeps(s: State, line: string, reading: Reading)
    ensures Carries(s, OnLog(s, line)) && (SettledOk(s) ==> SettledOk(OnLog(s, line)))
    ensures Carries(s, OnByteCount(s, reading)) && (SettledOk(s) ==> SettledOk(OnByteCount(s, reading)))
  {
    OtherRows(s.history, line, reading);
    hide Append, Sample;
  }

  lemma WorkerKeeps(s: State, pc: Pc, a: Action)
    requires a.WorkerA?
    ensures Carries(s, WorkerState(s, pc, a)) && (SettledOk(s) ==> SettledOk(WorkerState(s, pc, a)))
  {
    match pc {
      case Failing =>
        FailKeeps(s, a.message, a.now);
        SameCoreCarries(s, s);
        hide Carries, SettledOk, Fail;
      case AbortFlag =>
        StopKeeps(s);
        hide Carries, SettledOk, RaiseStop;
      case _ =>
        assert SameCore(s, WorkerState(s, pc, a));
        SameCoreCarries(s, WorkerState(s, pc, a));
        hide Carries;
    }
  }

  lemma OperatorKeeps(y: System, a: Action)
    requires FromOperator(a)
    ensures Carries(y.s, OperatorNext(y, a).s) && (SettledOk(y.s) ==> SettledOk(OperatorNext(y, a).s))
  {
    SameCoreCarries(y.s, y.s);
    hide Carries, Connect, BeginDisconnect, FinishDisconnect, RaiseStop, SettledOk;
    match a
    case ConnectA(profile, _, now) => ConnectKeeps(y.s, profile, now);
    case DisconnectA(_, now) => DisconnectKeeps(y.s, now);
    case FlagA(_) => StopKeeps(y.s);
    case FinishA(now) => DisconnectKeeps(y.s, now);
  }

  lemma EventKeeps(s: State, a: Action)
    requires !FromOperator(a) && !a.WorkerA?
    ensures Carries(s, EventState(s, a)) && (SettledOk(s) ==> SettledOk(EventState(s, a)))
  {
    hide Carries, OnState, OnPasswordNeeded, OnVerificationFailed, OnSocketClosed, Fail, OnLog, OnByteCount, SettledOk;
    match a
    case StateA(name, now) => StateKeeps(s, name, now);
    case NeedA(sent, now) => PromptKeeps(s, sent, now);
    case RejectedA(now) => RejectionKeeps(s, now);
    case ClosedA(now) => ClosedKeeps(s, now);
    case FatalA(message, now) => FailKeeps(s, message, now);
    case LogA(line) => HistoryKeeps(s, line, Reading(0.0, 0, 0));
    case BytesA(reading) => HistoryKeeps(s, "", reading);
  }

  lemma NextKeeps(y: System, a: Action)
    ensures Carries(y.s, Next(y, a).s) && (SettledOk(y.s) ==> SettledOk(Next(y, a).s))
  {
    SameCoreCarries(y.s, y.s);
    hide Carries, OperatorNext, EventState, WorkerState, SettledOk;
    if FromOperator(a) {
      OperatorKeeps(y, a);
    } else if a.WorkerA? {
      if a.worker in y.workers {
        WorkerKeeps(y.s, y.workers[a.worker], a);
      }
    } else {
      EventKeeps(y.s, a);
    }
  }

  // ---- attaching at start-up ----

  /** What holds at start-up, after an attach, and from then on. */
  ghost predicate Always(s: State) {
    SettledOk(s) && FlagOk(s) && RowsOk(s)
  }

  /** While `attach` replays the reported states: whoever is connected has a row that says so. */
  ghost predicate Adopting(s: State) {
    && FlagOk(s) && SettledOk(s)
    && ReasonsNeedConnection(s.history.tables.sessions)
    && s.status.state in {CONNECTING, CONNECTED, DISCONNECTED, FAILED}
    && (s.status.state == CONNECTED ==> CurrentConnected(s.history))
  }

  lemma AdoptingAnnounced(s: State, m: State, before: Phase, now: int)
    requires Adopting(s) && before == s.status.state && SameCore(s, m) && SettledOk(m)
    requires m.status.state in {CONNECTING, CONNECTED, DISCONNECTED, FAILED}
    ensures Adopting(Announced(m, before, now))
  {
    SameCoreCarries(s, m);
    AnnouncedMarks(m, before, now);
    if before != m.status.state {
      var h := Flush(m.history);
      FlushRows(m.history);
      hide Flush, End, MarkConnected, FlagOk;
      assert before == CONNECTED ==> CurrentConnected(h);
      MarkRows(h, now);
      EndRows(h, if m.status.state == FAILED then "failed" else "disconnected", Reason(m, before), now);
      hide ReasonsNeedConnection, CurrentConnected;
    }
  }

  lemma AdoptingState(s: State, name: string, now: int)
    requires Adopting(s)
    ensures Adopting(OnState(s, name, now))
  {
    var st := s.status;
    var st' :=
      if name == "CONNECTED" then
        st.(state := CONNECTED, error := None, connectedSince := Some(st.connectedSince.GetOr(now)))
      else if name == "EXITING" then
        st.(state := if HasError(st) then FAILED else DISCONNECTED, connectedSince := None)
      else if !Busy(st.state) then st.(state := CONNECTING)
      else st;
    var m := s.(status := st', settled := s.settled || name == "CONNECTED" || name == "EXITING");
    assert SettledOk(m);
    assert OnState(s, name, now) == Announced(m, st.state, now);
    hide Announced, OnState, SettledOk;
    AdoptingAnnounced(s, m, st.state, now);
  }

  lemma {:induction false} AdoptingFold(s: State, names: seq<string>, now: int)
    requires Adopting(s)
    ensures Adopting(FoldStates(s, names, now))
  {
    if names == [] {
    } else {
      hide Adopting, OnState;
      AdoptingFold(s, names[..|names| - 1], now);
      AdoptingState(FoldStates(s, names[..|names| - 1], now), names[|names| - 1], now);
    }
  }

  /** The state `attach` starts its replay from. */
  function Adopted(s: State, client: nat, now: int): State {
    s.(client := Some(client), history := Start(s.history, None, now),
       status := s.status.(state := CONNECTING), notifiedUp := true)
  }

  lemma AdoptedIsAdopting(h: Recorder, client: nat, now: int)
    requires ReasonsNeedConnection(h.tables.sessions)
    ensures Adopting(Adopted(Idle(h), client, now))
  {
    StartRows(h, None, now);
    hide Start, ReasonsNeedConnection;
  }

  /** At the end `notified` says whether the tunnel turned out to be up. */
  lemma AdoptingEnds(s: State, s': State)
    requires Adopting(s) && s' == s.(notifiedUp := s.status.state == CONNECTED)
    ensures FlagOk(s') && SettledOk(s') && RowsOk(s')
  {
    hide ReasonsNeedConnection, CurrentConnected, ReasonsTrue, StopPending;
  }

  lemma AttachKeeps(h: Recorder, client: nat, names: seq<string>, now: int)
    requires ReasonsNeedConnection(h.tables.sessions)
    ensures Always(Attach(Idle(h), client, names, now))
  {
    AdoptedIsAdopting(h, client, now);
    var adopted := Adopted(Idle(h), client, now);
    assert Attach(Idle(h), client, names, now) == FoldStates(adopted, names, now).(
      notifiedUp := FoldStates(adopted, names, now).status.state == CONNECTED);
    hide Start, FoldStates, Adopted, Attach, Adopting, FlagOk, RowsOk, SettledOk;
    AdoptingFold(adopted, names, now);
    AdoptingEnds(FoldStates(adopted, names, now), Attach(Idle(h), client, names, now));
  }

  // ---- over every run ----

  lemma {:induction false} AlwaysHolds(y: System, actions: seq<Action>)
    requires Always(y.s)
    ensures Always(RunAll(y, actions).s)
  {
    if actions == [] {
    } else {
      AlwaysHolds(y, actions[..|actions| - 1]);
      hide SettledOk, FlagOk, RowsOk, Next, EventsOk;
      NextKeeps(RunAll(y, actions[..|actions| - 1]), actions[|actions| - 1]);
    }
  }

  /** With or without an attach first, from a database whose rows are in order. */
  lemma StartsAlways(t: Tables, client: nat, names: seq<string>, now: int)
    requires ReasonsNeedConnection(t.sessions)
    ensures Always(Begin(t).s)
    ensures Always(Attach(Begin(t).s, client, names, now))
  {
    AttachKeeps(Fresh(t), client, names, now);
    hide Attach;
  }

  lemma {:induction false} EventsHold(t: Tables, actions: seq<Action>)
    ensures EventsOk(RunAll(Begin(t), actions).s)
  {
    if actions == [] {
    } else {
      EventsHold(t, actions[..|actions| - 1]);
      hide FlagOk, RowsOk, EventsOk, SettledOk, Next;
      NextKeeps(RunAll(Begin(t), actions[..|actions| - 1]), actions[|actions| - 1]);
    }
  }

  function Ups(trace: seq<Mark>): nat {
    if trace == [] then 0 else Ups(trace[..|trace| - 1]) + if trace[|trace| - 1].UpMark? then 1 else 0
  }

  function Downs(trace: seq<Mark>): nat {
    if trace == [] then 0 else Downs(trace[..|trace| - 1]) + if trace[|trace| - 1].DownMark? then 1 else 0
  }

  lemma {:induction false} DownsAreCovered(trace: seq<Mark>)
    requires DownsFollowUps(trace)
    ensures Downs(trace) <= Ups(trace)
    ensures LastEvent(trace) == Some(UpMark) ==> Downs(trace) < Ups(trace)
  {
    if trace == [] {
    } else {
      var init := trace[..|trace| - 1];
      forall i | 0 <= i <= |init|
        ensures init[..i] == trace[..i]
      {
      }
      DownsAreCovered(init);
    }
  }

  /**
   Started without an attach, no prefix of the event log has more DOWNs than UPs, and each DOWN comes directly
   after an UP, so between two DOWNs there is always an UP.
   */
  lemma NeverMoreDownsThanUps(t: Tables, actions: seq<Action>, n: nat)
    requires n <= |RunAll(Begin(t), actions).s.trace|
    ensures Downs(RunAll(Begin(t), actions).s.trace[..n]) <= Ups(RunAll(Begin(t), actions).s.trace[..n])
    ensures DownsFollowUps(RunAll(Begin(t), actions).s.trace)
  {
    EventsHold(t, actions);
    var trace := RunAll(Begin(t), actions).s.trace;
    var prefix := trace[..n];
    forall i | 0 <= i <= |prefix|
      ensures prefix[..i] == trace[..i]
    {
    }
    assert DownsFollowUps(prefix);
    DownsAreCovered(prefix);
  }

  /**
   Over every run from start-up or from an attach: each DOWN says `link-lost` exactly when no stop flag stood,
   that is, none was raised since the last attempt or DOWN; CONNECTED has a start time and no error; CONNECTED
   and FAILED have released the waiting worker; and a row has a reason only if it is marked connected.
   */
  lemma EveryRun(t: Tables, attached: bool, client: nat, names: seq<string>, now: int, actions: seq<Action>)
    requires ReasonsNeedConnection(t.sessions)
    ensures var y := if attached then Begin(t).(s := Attach(Begin(t).s, client, names, now)) else Begin(t);
            var s := RunAll(y, actions).s;
            && ReasonsTrue(s.trace)
            && (s.status.state == CONNECTED ==> s.status.connectedSince.Some? && s.status.error == None && s.settled)
            && (s.status.state == FAILED ==> s.settled)
            && ReasonsNeedConnection(s.history.tables.sessions)
  {
    StartsAlways(t, client, names, now);
    hide Attach;
    AlwaysHolds(if attached then Begin(t).(s := Attach(Begin(t).s, client, names, now)) else Begin(t), actions);
  }

  /** Hence the numbers over the history panel always fit together. */
  lemma SummaryOfAnyRun(t: Tables, attached: bool, client: nat, names: seq<string>, at: int, actions: seq<Action>,
                        cutoff: int, limit: nat, liveId: Option<nat>, now: int)
    requires ReasonsNeedConnection(t.sessions)
    ensures var y := if attached then Begin(t).(s := Attach(Begin(t).s, client, names, at)) else Begin(t);
            var listed := List(RunAll(y, actions).s.history.tables, cutoff, limit);
            var m := Sessions.Summarise(Sessions.FromRows(listed, liveId, now));
            m.drops + m.manual <= m.connected && m.failed + m.connected <= m.sessions
  {
    EveryRun(t, attached, client, names, at, actions);
    hide RunAll, List, ReasonsNeedConnection, Attach, Begin, ReasonsTrue;
    var y := if attached then Begin(t).(s := Attach(Begin(t).s, client, names, at)) else Begin(t);
    ListedRows(RunAll(y, actions).s.history.tables, cutoff, limit);
    Sessions.SummaryAddsUp(List(RunAll(y, actions).s.history.tables, cutoff, limit), liveId, now);
  }

  lemma ListedRows(t: Tables, cutoff: int, limit: nat)
    requires ReasonsNeedConnection(t.sessions)
    ensures forall i :: 0 <= i < |List(t, cutoff, limit)| ==> Sessions.ReasonNeedsConnection(List(t, cutoff, limit)[i].row)
  {
    var listed := List(t, cutoff, limit);
    forall i | 0 <= i < |listed|
      ensures Sessions.ReasonNeedsConnection(listed[i].row)
    {
      assert listed[i].row in Filter(t.sessions, InWindow(cutoff));
      var j :| 0 <= j < |t.sessions| && t.sessions[j] == listed[i].row;
    }
  }

  // ---- superseded workers and the pending secret ----

  /** The failure and cleanup path of a worker. */
  predicate Winding(pc: Pc) {
    pc in {Failing, AbortCheck, AbortFlag, Cleanup}
  }

  /** A superseded worker that fails or tidies up touches neither status, session, event log nor pending secret. */
  lemma SupersededIsQuiet(y: System, a: Action)
    requires a.WorkerA? && a.worker in y.workers && a.worker != y.s.attempt
    requires Winding(y.workers[a.worker])
    ensures var s' := Next(y, a).s;
            && s'.status == y.s.status && s'.history == y.s.history && s'.pendingSecret == y.s.pendingSecret
            && s'.notifiedUp == y.s.notifiedUp && s'.client == y.s.client && s'.settled == y.s.settled
            && (y.workers[a.worker] != AbortFlag ==> s' == y.s)
  {
  }

  lemma SecretOfOperator(y: System, a: Action)
    requires FromOperator(a)
    ensures Next(y, a).s.pendingSecret == y.s.pendingSecret
  {
    var s := y.s;
    AnnouncedStatus(s.(status := s.status.(state := DISCONNECTING, error := None)), s.status.state, if a.DisconnectA? then a.now else 0);
    AnnouncedStatus(s.(status := Status(DISCONNECTED, None, None, None)), s.status.state, if a.FinishA? then a.now else 0);
    hide Announced, Start;
  }

  lemma SecretOfEvent(s: State, a: Action)
    requires !FromOperator(a) && !a.WorkerA?
    ensures (a.NeedA? && s.client.Some?) || EventState(s, a).pendingSecret == s.pendingSecret
  {
    hide OnState, OnVerificationFailed, OnSocketClosed, Fail, Append, Sample;
    match a
    case StateA(name, now) => StateKeeps(s, name, now);
    case NeedA(sent, now) => FailKeeps(s, "OpenVPN asked for credentials but none were pending.", now);
    case RejectedA(now) => RejectionKeeps(s, now);
    case ClosedA(now) => ClosedKeeps(s, now);
    case FatalA(message, now) => FailKeeps(s, message, now);
    case LogA(line) =>
    case BytesA(reading) =>
  }

  lemma SecretOfWorker(s: State, pc: Pc, a: Action)
    requires a.WorkerA? && s.pendingSecret.Some?
    ensures (pc == Cleanup && s.attempt == a.worker) || WorkerState(s, pc, a).pendingSecret.Some?
  {
    FailKeeps(s, a.message, a.now);
    hide Fail;
  }

  /** A pending secret is erased only by answering a prompt or by the worker of the current attempt. */
  lemma SecretErasedOnlyBy(y: System, a: Action)
    requires y.s.pendingSecret.Some? && Next(y, a).s.pendingSecret.None?
    ensures || (a.NeedA? && y.s.client.Some?)
            || (a.WorkerA? && a.worker == y.s.attempt && a.worker in y.workers && y.workers[a.worker] == Cleanup)
  {
    hide OperatorNext, EventState, WorkerState;
    if FromOperator(a) {
      SecretOfOperator(y, a);
    } else if a.WorkerA? {
      if a.worker in y.workers {
        SecretOfWorker(y.s, y.workers[a.worker], a);
      }
    } else {
      SecretOfEvent(y.s, a);
    }
  }

  /** `_advance` never takes the attempt out of a state it has settled in. */
  lemma AdvanceNeverUnsettles(s: State, to: Phase)
    ensures s.status.state in {CONNECTED, FAILED, DISCONNECTED} ==> Advance(s, to) == s
    ensures Advance(s, to).status.state in {s.status.state, to}
    ensures Advance(s, to) == s.(status := Advance(s, to).status)
  {
  }
}
