/**
 What the controller leaves in storage.  Every step of a run reaches the history only through the recorder's own
 operations, so what holds of every run of the recorder holds of every run of the controller.
 */
module ControllerHistory {
  import opened Options
  import opened Store
  import opened Tails
  import opened HistoryLog
  import opened Controller
  import opened ControllerRuns

  function RowRequests(s: State, before: Phase, now: int): seq<Op> {
    if s.status.state == CONNECTED then [MarkOp(now)]
    else if s.status.state in {DISCONNECTED, FAILED} then
      [EndOp(if s.status.state == FAILED then "failed" else "disconnected", Reason(s, before), now)]
    else []
  }

  function EventRequests(s: State, before: Phase): seq<Op> {
    if GoesUp(s, before) then [EventOp("UP", "")]
    else if GoesDown(s, before) then [EventOp("DOWN", Reason(s, before))]
    else []
  }

  /** What one announcement asks of the recorder. */
  function Announcing(s: State, before: Phase, now: int): seq<Op> {
    if before == s.status.state then [] else [FlushOp] + RowRequests(s, before, now) + EventRequests(s, before)
  }

  /** What one step asks of the recorder: of the announcing steps, what their change of phase announces. */
  function Requests(y: System, a: Action): seq<Op> {
    var s' := Next(y, a).s;
    match a
    case ConnectA(profile, _, now) => if s' == y.s then [] else [StartOp(Some(profile), now)]
    case FlagA(_) => []
    case LogA(line) => [AppendOp(line)]
    case BytesA(reading) => [SampleOp(reading)]
    case WorkerA(worker, _, _, _, _, now) =>
      if worker in y.workers && y.workers[worker] == Failing && worker == y.s.attempt then Announcing(Told(y.s, s'), y.s.status.state, now) else []
    case _ => Announcing(Told(y.s, s'), y.s.status.state, a.now)
  }

  /** The state as the announcement finds it: the new status, the old flags. */
  function Told(s: State, s': State): State {
    s.(status := s'.status)
  }

  /** `before` and `after` differ as if by an announcement of the change of status. */
  ghost predicate Announces(s: State, s': State, now: int) {
    var told := Announced(Told(s, s'), s.status.state, now);
    s'.history == told.history && s'.trace == told.trace
  }

  lemma AnnouncedReads(m: State, m': State, before: Phase, now: int)
    requires SameCore(m, m') && m.status == m'.status
    ensures Announced(m, before, now).history == Announced(m', before, now).history
    ensures Announced(m, before, now).trace == Announced(m', before, now).trace
    ensures Announced(m, before, now).status == m.status
  {
    hide Flush, Record, MarkConnected, End;
  }

  lemma Announcement(s: State, m: State, now: int, s': State)
    requires SameCore(s, m)
    requires var after := Announced(m, s.status.state, now);
             s'.history == after.history && s'.trace == after.trace && s'.status == m.status
    ensures Announces(s, s', now)
  {
    AnnouncedReads(m, Told(s, s'), s.status.state, now);
    hide Announced;
  }

  /** Without a change of phase there is nothing to announce. */
  lemma Quiet(s: State, s': State, now: int)
    requires s'.status.state == s.status.state && s'.history == s.history && s'.trace == s.trace
    ensures Announces(s, s', now)
  {
  }

  lemma RunSnoc(h: Recorder, ops: seq<Op>, op: Op)
    ensures Run(h, ops + [op]) == Step(Run(h, ops), op)
  {
    hide Step;
    assert (ops + [op])[..|ops|] == ops;
  }

  lemma {:induction false} RunJoins(h: Recorder, a: seq<Op>, b: seq<Op>)
    ensures Run(h, a + b) == Run(Run(h, a), b)
  {
    if b == [] {
      assert a + b == a;
    } else {
      var init, last := b[..|b| - 1], b[|b| - 1];
      assert b == init + [last] && a + b == a + init + [last];
      RunJoins(h, a, init);
      RunSnoc(h, a + init, last);
      RunSnoc(Run(h, a), init, last);
      hide Run, Step;
    }
  }

  lemma RunOne(h: Recorder, op: Op)
    ensures Run(h, [op]) == Step(h, op)
  {
    hide Step;
    assert [op][..0] == [];
  }

  lemma ClosingRuns(s: State, before: Phase, now: int)
    ensures Run(Flush(s.history), RowRequests(s, before, now)) == Recorded(s, before, now)
  {
    var flushed := Flush(s.history);
    RunOne(flushed, MarkOp(now));
    RunOne(flushed, EndOp(if s.status.state == FAILED then "failed" else "disconnected", Reason(s, before), now));
    hide Flush, MarkConnected, End, Reason;
  }

  lemma EventRuns(h: Recorder, s: State, before: Phase)
    ensures Run(h, EventRequests(s, before)) ==
            if GoesUp(s, before) then Record(h, "UP", "")
            else if GoesDown(s, before) then Record(h, "DOWN", Reason(s, before))
            else h
  {
    RunOne(h, EventOp("UP", ""));
    RunOne(h, EventOp("DOWN", Reason(s, before)));
    hide GoesUp, GoesDown, Reason, Record;
  }

  /** The requests of an announcement do what the announcement does. */
  lemma AnnouncingRuns(s: State, before: Phase, now: int)
    ensures Run(s.history, Announcing(s, before, now)) == Announced(s, before, now).history
  {
    if before != s.status.state {
      var rows, events := RowRequests(s, before, now), EventRequests(s, before);
      RunOne(s.history, FlushOp);
      RunJoins(s.history, [FlushOp], rows);
      RunJoins(s.history, [FlushOp] + rows, events);
      ClosingRuns(s, before, now);
      EventRuns(Recorded(s, before, now), s, before);
      hide Run, Flush, Recorded, RowRequests, EventRequests, Record, Reason;
    }
  }

  // ---- each step ----

  lemma DisconnectAnnounces(y: System, a: Action)
    requires a.DisconnectA? || a.FinishA?
    ensures Announces(y.s, Next(y, a).s, a.now)
  {
    var s := y.s;
    var m := if a.DisconnectA? then s.(status := s.status.(state := DISCONNECTING, error := None))
             else s.(status := Status(DISCONNECTED, None, None, None));
    AnnouncedStatus(m, s.status.state, a.now);
    Quiet(s, s, a.now);
    hide Announced, Announces;
    if Next(y, a) != y {
      Announcement(s, m, a.now, Next(y, a).s);
    }
  }

  lemma FailAnnounces(s: State, message: string, now: int)
    ensures Announces(s, Fail(s, message, now), now)
  {
    var m := s.(status := s.status.(state := FAILED, error := Some(message), connectedSince := None));
    AnnouncedStatus(m, s.status.state, now);
    hide Announced, Announces;
    Announcement(s, m, now, Fail(s, message, now));
  }

  lemma StateAnnounces(s: State, name: string, now: int)
    ensures Announces(s, OnState(s, name, now), now)
  {
    var st := s.status;
    var st' :=
      if name == "CONNECTED" then
        st.(state := CONNECTED, error := None, connectedSince := Some(st.connectedSince.GetOr(now)))
      else if name == "EXITING" then
        st.(state := if HasError(st) then FAILED else DISCONNECTED, connectedSince := None)
      else if !Busy(st.state) then st.(state := CONNECTING)
      else st;
    var m := s.(status := st', settled := s.settled || name == "CONNECTED" || name == "EXITING");
    AnnouncedStatus(m, st.state, now);
    assert OnState(s, name, now) == Announced(m, st.state, now);
    hide Announced, Announces, OnState;
    Announcement(s, m, now, OnState(s, name, now));
  }

  lemma ClosedAnnounces(s: State, now: int)
    ensures Announces(s, OnSocketClosed(s, now), now)
  {
    var m := s.(client := None, status := OnSocketClosed(s, now).status);
    var st := s.status;
    var ended :=
      if st.state in {STARTING, AUTHENTICATING, CONNECTING} then
        st.(state := FAILED, error := if HasError(st) then st.error else Some("OpenVPN exited before the tunnel came up."))
      else if st.state in {CONNECTED, DISCONNECTING} then
        st.(state := if HasError(st) then FAILED else DISCONNECTED)
      else st;
    AnnouncedStatus(s.(client := None, status := ended.(connectedSince := None)), st.state, now);
    hide Announced, Announces;
    Announcement(s, m, now, OnSocketClosed(s, now));
  }

  lemma PasswordAnnounces(s: State, sent: bool, now: int)
    ensures Announces(s, OnPasswordNeeded(s, sent, now), now)
    ensures Announces(s, OnVerificationFailed(s, now), now)
  {
    var none, send, rejected := "OpenVPN asked for credentials but none were pending.", "Could not submit credentials",
      "Authentication rejected -- check the authenticator code and try again.";
    FailAnnounces(s, none, now);
    FailAnnounces(s, send, now);
    Quiet(s, s.(pendingSecret := None, authPrompt := true), now);
    var p := s.(authPrompt := true);
    FailAnnounces(p, rejected, now);
    SamePart(s, p, Fail(p, rejected, now), Fail(p, rejected, now), now);
    SamePart(s, s, Fail(s, send, now), Fail(s, send, now).(pendingSecret := None), now);
    hide Announces, Fail;
  }

  lemma SamePart(s: State, p: State, s': State, p': State, now: int)
    requires SameCore(s, p) && s.status == p.status && SameCore(s', p') && s'.status == p'.status
    requires Announces(p, s', now)
    ensures Announces(s, p', now)
  {
    AnnouncedReads(Told(p, s'), Told(s, p'), s.status.state, now);
    hide Announced;
  }

  lemma EventAnnounces(s: State, a: Action)
    requires !FromOperator(a) && !a.WorkerA? && !a.LogA? && !a.BytesA?
    ensures Announces(s, EventState(s, a), a.now)
  {
    hide OnState, OnPasswordNeeded, OnVerificationFailed, OnSocketClosed, Fail, Announces;
    match a
    case StateA(name, now) => StateAnnounces(s, name, now);
    case NeedA(sent, now) => PasswordAnnounces(s, sent, now);
    case RejectedA(now) => PasswordAnnounces(s, false, now);
    case ClosedA(now) => ClosedAnnounces(s, now);
    case FatalA(message, now) => FailAnnounces(s, message, now);
  }

  lemma AnnouncesRequested(s: State, s': State, now: int)
    requires Announces(s, s', now)
    ensures Run(s.history, Announcing(Told(s, s'), s.status.state, now)) == s'.history
  {
    AnnouncingRuns(Told(s, s'), s.status.state, now);
    hide Announcing, Announced, Run;
  }

  lemma EventRequested(y: System, a: Action)
    requires !FromOperator(a) && !a.WorkerA?
    ensures Run(y.s.history, Requests(y, a)) == Next(y, a).s.history
  {
    if a.LogA? {
      RunOne(y.s.history, AppendOp(a.line));
      hide Run;
    } else if a.BytesA? {
      RunOne(y.s.history, SampleOp(a.reading));
      hide Run;
    } else {
      EventAnnounces(y.s, a);
      AnnouncesRequested(y.s, EventState(y.s, a), a.now);
      hide Announcing, Announces, EventState, Run;
    }
  }

  lemma OperatorRequested(y: System, a: Action)
    requires FromOperator(a)
    ensures Run(y.s.history, Requests(y, a)) == Next(y, a).s.history
  {
    if a.ConnectA? {
      RunOne(y.s.history, StartOp(Some(a.profile), a.now));
      hide Run, Start;
    } else if !a.FlagA? {
      DisconnectAnnounces(y, a);
      AnnouncesRequested(y.s, Next(y, a).s, a.now);
      hide Announcing, Announces, OperatorNext, Run;
    }
  }

  /** A worker reaches storage only through the failure of the attempt it still owns. */
  lemma WorkerHistory(s: State, pc: Pc, a: Action)
    requires a.WorkerA?
    ensures if pc == Failing && s.attempt == a.worker then WorkerState(s, pc, a) == Fail(s, a.message, a.now)
            else WorkerState(s, pc, a).history == s.history
                 && WorkerState(s, pc, a).trace == s.trace + if pc == AbortFlag then [StopMark] else []
  {
    hide Fail;
  }

  lemma WorkerRequested(y: System, a: Action)
    requires a.WorkerA?
    ensures Run(y.s.history, Requests(y, a)) == Next(y, a).s.history
  {
    var s, s' := y.s, Next(y, a).s;
    if a.worker in y.workers {
      WorkerHistory(s, y.workers[a.worker], a);
      hide WorkerState;
      if y.workers[a.worker] == Failing && s.attempt == a.worker {
        FailAnnounces(s, a.message, a.now);
        AnnouncesRequested(s, s', a.now);
        hide Announcing, Announces, Fail, Run;
      }
    }
  }

  lemma StepRequests(y: System, a: Action)
    ensures Run(y.s.history, Requests(y, a)) == Next(y, a).s.history
  {
    hide Requests, Next, Run;
    if FromOperator(a) {
      OperatorRequested(y, a);
    } else if a.WorkerA? {
      WorkerRequested(y, a);
    } else {
      EventRequested(y, a);
    }
  }

  // ---- whole runs ----

  /** All a run asks of the recorder, in order. */
  function RunRequests(y: System, actions: seq<Action>): seq<Op> {
    if actions == [] then []
    else
      var earlier := actions[..|actions| - 1];
      RunRequests(y, earlier) + Requests(RunAll(y, earlier), actions[|actions| - 1])
  }

  lemma {:induction false} RunIsRequests(y: System, actions: seq<Action>)
    ensures Run(y.s.history, RunRequests(y, actions)) == RunAll(y, actions).s.history
  {
    if actions == [] {
    } else {
      var earlier := actions[..|actions| - 1];
      RunIsRequests(y, earlier);
      StepRequests(RunAll(y, earlier), actions[|actions| - 1]);
      RunJoins(y.s.history, RunRequests(y, earlier), Requests(RunAll(y, earlier), actions[|actions| - 1]));
      hide Requests, Next, Run;
    }
  }

  /** What `attach` asks while it replays the reported states. */
  function StateRequests(s: State, names: seq<string>, now: int): seq<Op> {
    if names == [] then []
    else
      var earlier := FoldStates(s, names[..|names| - 1], now);
      StateRequests(s, names[..|names| - 1], now)
      + Announcing(Told(earlier, OnState(earlier, names[|names| - 1], now)), earlier.status.state, now)
  }

  lemma {:induction false} StatesAreRequests(s: State, names: seq<string>, now: int)
    ensures Run(s.history, StateRequests(s, names, now)) == FoldStates(s, names, now).history
  {
    if names == [] {
    } else {
      var earlier := FoldStates(s, names[..|names| - 1], now);
      var asked := Told(earlier, OnState(earlier, names[|names| - 1], now));
      StatesAreRequests(s, names[..|names| - 1], now);
      StateAnnounces(earlier, names[|names| - 1], now);
      AnnouncingRuns(asked, earlier.status.state, now);
      RunJoins(s.history, StateRequests(s, names[..|names| - 1], now), Announcing(asked, earlier.status.state, now));
      hide Announcing, Announced, OnState, Run;
    }
  }

  /** Where a run begins: idle over stored tables, and perhaps attached to a running process. */
  datatype Beginning = Plain(tables: Tables) | Attached(tables: Tables, client: nat, names: seq<string>, now: int)

  function First(b: Beginning): System {
    if b.Plain? then Begin(b.tables)
    else Begin(b.tables).(s := Attach(Begin(b.tables).s, b.client, b.names, b.now))
  }

  function FirstRequests(b: Beginning): seq<Op> {
    if b.Plain? then []
    else [StartOp(None, b.now)] + StateRequests(Adopted(Begin(b.tables).s, b.client, b.now), b.names, b.now)
  }

  lemma FirstIsRequests(b: Beginning)
    ensures Run(Fresh(b.tables), FirstRequests(b)) == First(b).s.history
  {
    if b.Attached? {
      var s := Begin(b.tables).s;
      var adopted := Adopted(s, b.client, b.now);
      StatesAreRequests(adopted, b.names, b.now);
      RunOne(s.history, StartOp(None, b.now));
      RunJoins(s.history, [StartOp(None, b.now)], StateRequests(adopted, b.names, b.now));
      hide Run, Start, FoldStates, StateRequests;
    }
  }

  /**
   Every run of the controller, attached or not, is one run of the recorder; so no session row is closed twice,
   and none of the lines and readings it stored is left without its session.
   */
  lemma EachRowClosedOnce(k: nat, b: Beginning, actions: seq<Action>)
    requires Sound(b.tables)
    ensures var ops := FirstRequests(b) + RunRequests(First(b), actions);
            && Run(Fresh(b.tables), ops) == RunAll(First(b), actions).s.history
            && Distinct(Notebook(k, Fresh(b.tables), FirstNotes(k, b.tables), ops).closed)
            && NoOrphans(RunAll(First(b), actions).s.history.tables)
  {
    var ops := FirstRequests(b) + RunRequests(First(b), actions);
    FirstIsRequests(b);
    RunIsRequests(First(b), actions);
    RunJoins(Fresh(b.tables), FirstRequests(b), RunRequests(First(b), actions));
    ClosedAtMostOnce(k, b.tables, ops);
    NeverOrphans(b.tables, ops);
    hide *;
  }

  // ---- the event log ----

  /** The stored events a trace stands for. */
  function Events(trace: seq<Mark>): seq<Event> {
    if trace == [] then []
    else
      var m := trace[|trace| - 1];
      Events(trace[..|trace| - 1])
      + match m { case UpMark => [Event("UP", "")] case DownMark(reason) => [Event("DOWN", reason)] case _ => [] }
  }

  lemma EventsSnoc(trace: seq<Mark>, m: Mark)
    ensures Events(trace + [m]) == Events(trace)
            + match m { case UpMark => [Event("UP", "")] case DownMark(reason) => [Event("DOWN", reason)] case _ => [] }
  {
    assert (trace + [m])[..|trace|] == trace;
  }

  ghost predicate Logged(base: seq<Event>, s: State) {
    s.history.tables.events == base + Events(s.trace)
  }

  lemma RecordedEvents(s: State, before: Phase, now: int)
    ensures Recorded(s, before, now).tables.events == s.history.tables.events
  {
  }

  lemma AnnouncedLogged(base: seq<Event>, s: State, before: Phase, now: int)
    requires Logged(base, s)
    ensures Logged(base, Announced(s, before, now))
  {
    RecordedEvents(s, before, now);
    EventsSnoc(s.trace, UpMark);
    EventsSnoc(s.trace, DownMark(Reason(s, before)));
    hide Recorded, Events, Reason;
  }

  lemma AnnouncesLogged(base: seq<Event>, s: State, s': State, now: int)
    requires Logged(base, s) && Announces(s, s', now)
    ensures Logged(base, s')
  {
    AnnouncedLogged(base, Told(s, s'), s.status.state, now);
    hide Announced;
  }

  lemma StartEvents(h: Recorder, connection: Option<string>, now: int)
    ensures Start(h, connection, now).tables.events == h.tables.events
  {
    hide Filter, Store.Kept, Ids;
  }

  lemma ConnectLogged(base: seq<Event>, s: State, profile: string, now: int)
    requires Logged(base, s)
    ensures Logged(base, Connect(s, profile, now)) && Logged(base, RaiseStop(s))
  {
    StartEvents(s.history, Some(profile), now);
    EventsSnoc(s.trace, ConnectMark);
    EventsSnoc(s.trace, StopMark);
    assert Events(s.trace) + [] == Events(s.trace);
    hide Start, Events;
  }

  lemma OperatorLogged(base: seq<Event>, y: System, a: Action)
    requires FromOperator(a) && Logged(base, y.s)
    ensures Logged(base, Next(y, a).s)
  {
    if a.ConnectA? || a.FlagA? {
      ConnectLogged(base, y.s, if a.ConnectA? then a.profile else "", if a.ConnectA? then a.now else 0);
      hide Logged, Connect, RaiseStop;
    } else {
      DisconnectAnnounces(y, a);
      hide *;
      AnnouncesLogged(base, y.s, Next(y, a).s, a.now);
    }
  }

  lemma EventLogged(base: seq<Event>, s: State, a: Action)
    requires !FromOperator(a) && !a.WorkerA? && Logged(base, s)
    ensures Logged(base, EventState(s, a))
  {
    if !a.LogA? && !a.BytesA? {
      EventAnnounces(s, a);
      hide EventState, Announces, Logged;
      AnnouncesLogged(base, s, EventState(s, a), a.now);
    }
  }

  lemma WorkerLogged(base: seq<Event>, s: State, pc: Pc, a: Action)
    requires a.WorkerA? && Logged(base, s)
    ensures Logged(base, WorkerState(s, pc, a))
  {
    WorkerHistory(s, pc, a);
    FailAnnounces(s, a.message, a.now);
    EventsSnoc(s.trace, StopMark);
    hide WorkerState, Fail, Announces, Events;
    if pc == Failing && s.attempt == a.worker {
      AnnouncesLogged(base, s, WorkerState(s, pc, a), a.now);
    } else {
      assert s.trace + [] == s.trace;
    }
  }

  lemma {:induction false} RunLogged(base: seq<Event>, y: System, actions: seq<Action>)
    requires Logged(base, y.s)
    ensures Logged(base, RunAll(y, actions).s)
  {
    if actions == [] {
    } else {
      var before, a := RunAll(y, actions[..|actions| - 1]), actions[|actions| - 1];
      RunLogged(base, y, actions[..|actions| - 1]);
      hide Logged, OperatorNext, EventState, WorkerState;
      if FromOperator(a) {
        OperatorLogged(base, before, a);
      } else if a.WorkerA? {
        if a.worker in before.workers {
          WorkerLogged(base, before.s, before.workers[a.worker], a);
        }
      } else {
        EventLogged(base, before.s, a);
      }
    }
  }

  lemma {:induction false} StatesLogged(base: seq<Event>, s: State, names: seq<string>, now: int)
    requires Logged(base, s)
    ensures Logged(base, FoldStates(s, names, now))
  {
    if names == [] {
    } else {
      var earlier, name := FoldStates(s, names[..|names| - 1], now), names[|names| - 1];
      StatesLogged(base, s, names[..|names| - 1], now);
      StateAnnounces(earlier, name, now);
      hide OnState, Announces, Logged;
      AnnouncesLogged(base, earlier, OnState(earlier, name, now), now);
    }
  }

  lemma FirstLogged(b: Beginning)
    ensures Logged(b.tables.events, First(b).s)
  {
    if b.Attached? {
      StartEvents(Fresh(b.tables), None, b.now);
      hide FoldStates, Start;
      StatesLogged(b.tables.events, Adopted(Begin(b.tables).s, b.client, b.now), b.names, b.now);
    }
  }

  /** The stored event log is the UPs and DOWNs of the run, each with its reason, in order, and nothing else. */
  lemma StoredEventsAreTheTrace(b: Beginning, actions: seq<Action>)
    ensures var s := RunAll(First(b), actions).s;
            s.history.tables.events == b.tables.events + Events(s.trace)
  {
    FirstLogged(b);
    hide First, RunAll;
    RunLogged(b.tables.events, First(b), actions);
  }
}
