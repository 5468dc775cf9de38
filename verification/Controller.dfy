/**
 The tunnel's lifecycle: what operator calls, numbered worker threads and management events do to one shared
 state.  A `_tracked` block and the announcement that follows it are one step; storage succeeds; the clock,
 the process table and the socket are parameters.
 */
module Controller {
  import opened Options
  import opened Store
  import opened HistoryLog

  datatype Phase = DISCONNECTED | STARTING | AUTHENTICATING | CONNECTING | CONNECTED | DISCONNECTING | FAILED

  predicate Busy(p: Phase) {
    p in {STARTING, AUTHENTICATING, CONNECTING, DISCONNECTING}
  }

  datatype Status = Status(state: Phase, error: Option<string>, connectedSince: Option<int>, profile: Option<string>)

  /** Python's truth of the error text: an empty message counts as none. */
  predicate HasError(s: Status) {
    s.error.Some? && s.error.value != ""
  }

  /** What happened, in order: attempts, stop flags, and the UP/DOWN events the operator is told of. */
  datatype Mark = ConnectMark | StopMark | UpMark | DownMark(reason: string)

  datatype State = State(
    status: Status,
    client: Option<nat>,
    authPrompt: bool,
    settled: bool,
    pendingSecret: Option<string>,
    notifiedUp: bool,
    shutdownRequested: bool,
    attempt: nat,
    history: Recorder,
    trace: seq<Mark>)

  const REQUESTED := "operator-requested"
  const LINK_LOST := "link-lost"

  // ---- the announcement ----

  predicate GoesUp(s: State, before: Phase) {
    before != s.status.state && s.status.state == CONNECTED && !s.notifiedUp
  }

  predicate GoesDown(s: State, before: Phase) {
    && before in {CONNECTED, DISCONNECTING} && s.status.state in {DISCONNECTED, FAILED}
    && s.notifiedUp
  }

  function Reason(s: State, before: Phase): string {
    if !GoesDown(s, before) then "" else if s.shutdownRequested then REQUESTED else LINK_LOST
  }

  /** The history side of a transition. */
  function Recorded(s: State, before: Phase, now: int): Recorder {
    Written(s.history, s.status.state, Reason(s, before), now)
  }

  function Written(history: Recorder, after: Phase, reason: string, now: int): Recorder {
    var h := Flush(history);
    if after == CONNECTED then MarkConnected(h, now)
    else if after in {DISCONNECTED, FAILED} then End(h, if after == FAILED then "failed" else "disconnected", reason, now)
    else h
  }

  function Announced(s: State, before: Phase, now: int): State {
    if before == s.status.state then s
    else
      var h := Recorded(s, before, now);
      if GoesUp(s, before) then
        s.(notifiedUp := true, history := Record(h, "UP", ""), trace := s.trace + [UpMark])
      else if GoesDown(s, before) then
        s.(notifiedUp := false, shutdownRequested := false,
           history := Record(h, "DOWN", Reason(s, before)), trace := s.trace + [DownMark(Reason(s, before))])
      else s.(history := h)
  }

  // ---- the steps ----

  function Connect(s: State, profile: string, now: int): State {
    s.(status := Status(STARTING, None, None, Some(profile)),
       authPrompt := false, settled := false, shutdownRequested := false, notifiedUp := false,
       attempt := s.attempt + 1,
       history := Start(s.history, Some(profile), now),
       trace := s.trace + [ConnectMark])
  }

  function BeginDisconnect(s: State, now: int): State {
    Announced(s.(status := s.status.(state := DISCONNECTING, error := None)), s.status.state, now)
  }

  function RaiseStop(s: State): State {
    s.(shutdownRequested := true, trace := s.trace + [StopMark])
  }

  function FinishDisconnect(s: State, now: int): State {
    Announced(s.(status := Status(DISCONNECTED, None, None, None)), s.status.state, now)
  }

  function Fail(s: State, message: string, now: int): State {
    Announced(s.(status := s.status.(state := FAILED, error := Some(message), connectedSince := None)), s.status.state, now)
    .(settled := true, authPrompt := true)
  }

  /** `_on_state`, for a notification that names a state. */
  function OnState(s: State, name: string, now: int): State {
    var st := s.status;
    var (st', settles) :=
      if name == "CONNECTED" then
        (st.(state := CONNECTED, error := None, connectedSince := Some(st.connectedSince.GetOr(now))), true)
      else if name == "EXITING" then
        (st.(state := if HasError(st) then FAILED else DISCONNECTED, connectedSince := None), true)
      else if !Busy(st.state) then (st.(state := CONNECTING), false)
      else (st, false);
    Announced(s.(status := st', settled := s.settled || settles), st.state, now)
  }

  /** A credential prompt: answered with the pending secret if there is one and a client to answer through. */
  function OnPasswordNeeded(s: State, sent: bool, now: int): State {
    if s.client.None? || s.pendingSecret.None? then Fail(s, "OpenVPN asked for credentials but none were pending.", now)
    else if !sent then Fail(s, "Could not submit credentials", now).(pendingSecret := None)
    else s.(pendingSecret := None, authPrompt := true)
  }

  function OnVerificationFailed(s: State, now: int): State {
    Fail(s.(authPrompt := true), "Authentication rejected -- check the authenticator code and try again.", now)
  }

  function OnSocketClosed(s: State, now: int): State {
    var st := s.status;
    var ended :=
      if st.state in {STARTING, AUTHENTICATING, CONNECTING} then
        st.(state := FAILED, error := if HasError(st) then st.error else Some("OpenVPN exited before the tunnel came up."))
      else if st.state in {CONNECTED, DISCONNECTING} then
        st.(state := if HasError(st) then FAILED else DISCONNECTED)
      else st;
    Announced(s.(client := None, status := ended.(connectedSince := None)), st.state, now)
    .(settled := true, authPrompt := true)
  }

  function Advance(s: State, to: Phase): State {
    if s.status.state in {CONNECTED, FAILED, DISCONNECTED} then s else s.(status := s.status.(state := to))
  }

  function OnLog(s: State, line: string): State {
    s.(history := Append(s.history, line))
  }

  function OnByteCount(s: State, reading: Reading): State {
    s.(history := Sample(s.history, reading))
  }

  /** `_fail` as a worker reaches it: not at all once a newer attempt has started. */
  function FailUnlessSuperseded(s: State, attempt: nat, message: string, now: int): State {
    if s.attempt != attempt then s else Fail(s, message, now)
  }

  function ClearSecret(s: State, attempt: nat): State {
    if s.attempt == attempt then s.(pendingSecret := None) else s
  }

  function FoldStates(s: State, names: seq<string>, now: int): State {
    if names == [] then s else OnState(FoldStates(s, names[..|names| - 1], now), names[|names| - 1], now)
  }

  /** `attach` at start-up, when a running process answers: `names` are the states it reports. */
  function Attach(s: State, client: nat, names: seq<string>, now: int): State {
    var adopted := s.(client := Some(client), history := Start(s.history, None, now),
                      status := s.status.(state := CONNECTING), notifiedUp := true);
    var refreshed := FoldStates(adopted, names, now);
    refreshed.(notifiedUp := refreshed.status.state == CONNECTED)
  }

  // ---- the class ----

  class OpenVpnController {
    const history: History
    var status: Status
    var client: Option<nat>
    var authPrompt: bool
    var settled: bool
    var pendingSecret: Option<string>
    var notifiedUp: bool
    var shutdownRequested: bool
    var attempt: nat
    ghost var trace: seq<Mark>

    ghost function View(): State
      reads this, history, history.db
    {
      State(status, client, authPrompt, settled, pendingSecret, notifiedUp, shutdownRequested, attempt, history.View(), trace)
    }

    constructor (history: History)
      ensures this.history == history
      ensures View() == Idle(history.View())
    {
      this.history := history;
      status := Status(DISCONNECTED, None, None, None);
      client, authPrompt, settled, pendingSecret := None, false, false, None;
      notifiedUp, shutdownRequested, attempt, trace := false, false, 0, [];
    }

    /** The storage half of the announcement; `event` is empty if nothing is told. */
    method WriteHistory(event: string, reason: string, now: int)
      modifies history, history.db
      ensures history.View() == var written := Written(old(history.View()), status.state, reason, now);
                                if event == "" then written else Record(written, event, reason)
    {
      hide Flush, MarkConnected, End, Record;
      history.FlushLines();
      if status.state == CONNECTED {
        history.MarkSessionConnected(now);
      } else if status.state in {DISCONNECTED, FAILED} {
        history.EndSession(if status.state == FAILED then "failed" else "disconnected", reason, now);
      }
      if event != "" {
        history.RecordEvent(event, reason);
      }
    }

    method Announce(before: Phase, now: int)
      modifies this, history, history.db
      ensures View() == Announced(old(View()), before, now)
      ensures old(notifiedUp) && (before == CONNECTED || before == DISCONNECTING) && (status.state == DISCONNECTED || status.state == FAILED) ==>
                && trace == old(trace) + [DownMark(if old(shutdownRequested) then "operator-requested" else "link-lost")]
                && !notifiedUp && !shutdownRequested
      ensures !old(notifiedUp) && before != CONNECTED && status.state == CONNECTED ==> trace == old(trace) + [UpMark] && notifiedUp
      ensures before == status.state ==> View() == old(View())
    {
      hide Written, Record;
      if before == status.state {
        return;
      }
      var after := status.state;
      var event, reason := "", "";
      if after == CONNECTED && !notifiedUp {
        notifiedUp := true;
        event := "UP";
        trace := trace + [UpMark];
      } else if before in {CONNECTED, DISCONNECTING} && after in {DISCONNECTED, FAILED} {
        if notifiedUp {
          notifiedUp := false;
          reason := if shutdownRequested then REQUESTED else LINK_LOST;
          shutdownRequested := false;
          event := "DOWN";
          trace := trace + [DownMark(reason)];
        }
      }
      WriteHistory(event, reason, now);
    }

    method ConnectTo(profile: string, running: bool, now: int) returns (started: bool)
      modifies this, history, history.db
      ensures started <==> !Busy(old(status).state) && old(status).state != CONNECTED && !running
      ensures View() == if started then Connect(old(View()), profile, now) else old(View())
    {
      hide Start;
      if Busy(status.state) || status.state == CONNECTED || running {
        return false;
      }
      status := Status(STARTING, None, None, Some(profile));
      history.StartSession(Some(profile), now);
      authPrompt, settled := false, false;
      shutdownRequested, notifiedUp := false, false;
      attempt := attempt + 1;
      trace := trace + [ConnectMark];
      started := true;
    }

    /** The first block of `disconnect`; the flag and the fallback follow as steps of their own. */
    method DisconnectBegin(running: bool, now: int) returns (ok: bool)
      modifies this, history, history.db
      ensures ok <==> !(old(status).state == DISCONNECTED && !running)
      ensures View() == if ok then BeginDisconnect(old(View()), now) else old(View())
    {
      hide Announced;
      var before := status.state;
      if before == DISCONNECTED && !running {
        return false;
      }
      status := status.(state := DISCONNECTING, error := None);
      Announce(before, now);
      ok := true;
    }

    method RequestShutdown()
      modifies this
      ensures View() == RaiseStop(old(View()))
    {
      shutdownRequested := true;
      trace := trace + [StopMark];
    }

    method DisconnectFinish(now: int)
      modifies this, history, history.db
      ensures View() == FinishDisconnect(old(View()), now)
    {
      hide Announced;
      var before := status.state;
      status := Status(DISCONNECTED, None, None, None);
      Announce(before, now);
    }

    method FailWith(message: string, now: int)
      modifies this, history, history.db
      ensures View() == Fail(old(View()), message, now)
    {
      hide Announced;
      var before := status.state;
      status := status.(state := FAILED, error := Some(message), connectedSince := None);
      Announce(before, now);
      settled, authPrompt := true, true;
    }

    method StateEvent(name: string, now: int)
      modifies this, history, history.db
      ensures View() == OnState(old(View()), name, now)
    {
      hide Announced;
      var before := status.state;
      if name == "CONNECTED" {
        status := status.(state := CONNECTED, error := None);
        if status.connectedSince.None? {
          status := status.(connectedSince := Some(now));
        }
        settled := true;
      } else if name == "EXITING" {
        status := status.(state := if !HasError(status) then DISCONNECTED else FAILED, connectedSince := None);
        settled := true;
      } else if !Busy(status.state) {
        status := status.(state := CONNECTING);
      }
      Announce(before, now);
    }

    method PasswordNeeded(sent: bool, now: int)
      modifies this, history, history.db
      ensures View() == OnPasswordNeeded(old(View()), sent, now)
    {
      hide Fail;
      if client.None? || pendingSecret.None? {
        FailWith("OpenVPN asked for credentials but none were pending.", now);
        return;
      }
      if !sent {
        FailWith("Could not submit credentials", now);
        pendingSecret := None;
        return;
      }
      pendingSecret := None;
      authPrompt := true;
    }

    method VerificationFailed(now: int)
      modifies this, history, history.db
      ensures View() == OnVerificationFailed(old(View()), now)
    {
      hide Fail;
      authPrompt := true;
      FailWith("Authentication rejected -- check the authenticator code and try again.", now);
    }

    method SocketClosed(now: int)
      modifies this, history, history.db
      ensures View() == OnSocketClosed(old(View()), now)
    {
      hide Announced;
      client := None;
      var before := status.state;
      if before in {STARTING, AUTHENTICATING, CONNECTING} {
        status := status.(state := FAILED);
        if !HasError(status) {
          status := status.(error := Some("OpenVPN exited before the tunnel came up."));
        }
      } else if before in {CONNECTED, DISCONNECTING} {
        status := status.(state := if HasError(status) then FAILED else DISCONNECTED);
      }
      status := status.(connectedSince := None);
      Announce(before, now);
      settled, authPrompt := true, true;
    }

    method AdvanceTo(to: Phase) returns (moved: bool)
      modifies this
      ensures View() == Advance(old(View()), to)
      ensures moved <==> old(status).state !in {CONNECTED, FAILED, DISCONNECTED}
    {
      if status.state in {CONNECTED, FAILED, DISCONNECTED} {
        return false;
      }
      status := status.(state := to);
      moved := true;
    }

    method WorkerFailed(mine: nat, message: string, now: int) returns (failed: bool)
      modifies this, history, history.db
      ensures failed <==> old(attempt) == mine
      ensures View() == FailUnlessSuperseded(old(View()), mine, message, now)
    {
      hide Fail;
      if attempt != mine {
        return false;
      }
      FailWith(message, now);
      failed := true;
    }

    method WorkerCleanup(mine: nat)
      modifies this
      ensures View() == ClearSecret(old(View()), mine)
    {
      if attempt == mine {
        pendingSecret := None;
      }
    }

    method AttachTo(id: nat, names: seq<string>, now: int)
      modifies this, history, history.db
      ensures View() == Attach(old(View()), id, names, now)
    {
      hide Start, OnState;
      client := Some(id);
      history.StartSession(None, now);
      status := status.(state := CONNECTING);
      notifiedUp := true;
      ghost var adopted := View();
      var i := 0;
      while i < |names|
        invariant 0 <= i <= |names|
        invariant View() == FoldStates(adopted, names[..i], now)
      {
        StateEvent(names[i], now);
        assert names[..i + 1][..i] == names[..i];
        i := i + 1;
      }
      assert names[..i] == names;
      notifiedUp := status.state == CONNECTED;
    }
  }

  function Idle(h: Recorder): State {
    State(Status(DISCONNECTED, None, None, None), None, false, false, None, false, false, 0, h, [])
  }
}
