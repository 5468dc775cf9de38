/**
 Commands and their replies.  Three parties take steps in any order: a caller holding the send lock, the peer,
 and the reader.  The peer answers each command once and may send notifications at any moment; plain lines
 nobody waits for may arrive while no command is under way.
 */
module Conversation {
  import opened Options
  import opened Tails
  import opened Management

  /**
   The caller has written the commands `begun`, the peer has begun to answer the first `answered` of those it was
   `asked`, and `emitted` and `heard` list the notifications the peer has sent and the reader has passed on.
   */
  datatype Conn = Conn(
    queue: seq<string>,
    wire: seq<string>,
    begun: seq<string>,
    asked: seq<string>,
    answered: nat,
    owed: seq<string>,
    waiting: Option<string>,
    collected: seq<string>,
    results: seq<(string, Outcome)>,
    emitted: seq<string>,
    heard: seq<string>)

  datatype Action =
    | Begin(command: string)
    | PeerAnswers
    | PeerSends
    | PeerNotifies(line: string)
    | ReaderDelivers
    | CallerTakes
    | Stray(line: string)

  predicate IsPlain(line: string) {
    !IsNotification(line)
  }

  function Plain(lines: seq<string>): seq<string> {
    Filter(lines, IsPlain)
  }

  /** One answer: plain lines of which exactly the last ends the wait. */
  ghost predicate WellFormed(answer: seq<string>) {
    && answer != [] && FirstEnd(answer) == |answer| - 1
    && forall i :: 0 <= i < |answer| ==> IsPlain(answer[i]) && answer[i] != EOF
  }

  /** The caller's loop, at the next reply. */
  function Take(c: Conn): Conn
    requires c.waiting.Some? && c.queue != []
  {
    var reply, rest := c.queue[0], c.queue[1..];
    if Terminal(reply) then
      c.(queue := rest, waiting := None, collected := [],
         results := c.results + [(c.waiting.value, Collected(c.collected + [reply]))])
    else c.(queue := rest, collected := c.collected + [reply])
  }

  function Next(c: Conn, a: Action, answer: (nat, string) -> seq<string>): Conn {
    match a
    case Begin(command) =>
      // the send lock: not while another command is under way; the queue is drained before the write
      if c.waiting.Some? then c
      else c.(queue := [], begun := c.begun + [command], asked := c.asked + [command], waiting := Some(command), collected := [])
    case PeerAnswers =>
      if c.asked == [] || c.owed != [] then c
      else c.(asked := c.asked[1..], answered := c.answered + 1, owed := answer(c.answered, c.asked[0]))
    case PeerSends =>
      if c.owed == [] then c else c.(wire := c.wire + [c.owed[0]], owed := c.owed[1..])
    case PeerNotifies(line) =>
      if IsPlain(line) then c else c.(wire := c.wire + [line], emitted := c.emitted + [line])
    case ReaderDelivers =>
      if c.wire == [] then c
      else c.(wire := c.wire[1..],
              queue := c.queue + if IsPlain(c.wire[0]) then [c.wire[0]] else [],
              heard := c.heard + if IsPlain(c.wire[0]) then [] else [c.wire[0]])
    case CallerTakes =>
      if c.waiting.None? || c.queue == [] then c else Take(c)
    case Stray(line) =>
      if c.waiting.Some? || !IsPlain(line) then c else c.(queue := c.queue + [line])
  }

  function Run(c: Conn, actions: seq<Action>, answer: (nat, string) -> seq<string>): Conn {
    if actions == [] then c else Next(Run(c, actions[..|actions| - 1], answer), actions[|actions| - 1], answer)
  }

  /** Nobody waits, nothing is owed; the queue may hold any number of stale lines. */
  function Quiet(stale: seq<string>): Conn {
    Conn(stale, [], [], [], 0, [], None, [], [], [], [])
  }

  /** The answer to the command under way, wherever its lines are. */
  ghost predicate InTransit(c: Conn, answer: (nat, string) -> seq<string>) {
    && c.asked == [] && c.answered == |c.results| + 1
    && c.collected + c.queue + Plain(c.wire) + c.owed == answer(|c.results|, c.waiting.GetOr(""))
    && |c.collected| < |answer(|c.results|, c.waiting.GetOr(""))|
  }

  ghost predicate NotYet(c: Conn) {
    c.asked == [c.waiting.GetOr("")] && c.answered == |c.results| && c.owed == [] && c.collected == [] && c.queue == [] && Plain(c.wire) == []
  }

  /** Every command but the one under way has its result. */
  ghost predicate InTurn(c: Conn) {
    if c.waiting.None? then |c.begun| == |c.results|
    else |c.begun| == |c.results| + 1 && c.begun[|c.results|] == c.waiting.value
  }

  ghost predicate Inv(c: Conn, answer: (nat, string) -> seq<string>) {
    && InTurn(c)
    && if c.waiting.None? then c.asked == [] && c.answered == |c.results| && c.owed == [] && Plain(c.wire) == []
       else NotYet(c) || InTransit(c, answer)
  }

  lemma PlainAppend(wire: seq<string>, line: string)
    ensures Plain(wire + [line]) == Plain(wire) + if IsPlain(line) then [line] else []
  {
    FilterAppend(wire, [line], IsPlain);
    assert Filter([line], IsPlain) == if IsPlain(line) then [line] else [] by { assert [line][..0] == []; }
  }

  lemma PlainHead(wire: seq<string>)
    requires wire != []
    ensures Plain(wire) == (if IsPlain(wire[0]) then [wire[0]] else []) + Plain(wire[1..])
  {
    assert wire == [wire[0]] + wire[1..];
    FilterAppend([wire[0]], wire[1..], IsPlain);
    assert Filter([wire[0]], IsPlain) == if IsPlain(wire[0]) then [wire[0]] else [] by { assert [wire[0]][..0] == []; }
  }

  /** A move of a line from one place to the next leaves the order as it is. */
  lemma MovedLeft(a: seq<string>, b: seq<string>, d: seq<string>)
    requires d != []
    ensures a + (b + [d[0]]) + d[1..] == a + b + d
  {
  }

  lemma Moved(a: seq<string>, b: seq<string>, line: string, d: seq<string>)
    ensures (a + b) + ([line] + d) == a + (b + [line]) + d
  {
  }

  lemma SendKeeps(c: Conn, answer: (nat, string) -> seq<string>)
    requires c.waiting.Some? && InTransit(c, answer) && c.owed != [] && IsPlain(c.owed[0])
    ensures InTransit(Next(c, PeerSends, answer), answer)
  {
    hide Plain, IsPlain;
    PlainAppend(c.wire, c.owed[0]);
    MovedLeft(c.collected + c.queue, Plain(c.wire), c.owed);
  }

  lemma DeliverKeeps(c: Conn, answer: (nat, string) -> seq<string>)
    requires c.waiting.Some? && InTransit(c, answer) && c.wire != []
    ensures InTransit(Next(c, ReaderDelivers, answer), answer)
  {
    PlainHead(c.wire);
    Moved(c.collected, c.queue, c.wire[0], Plain(c.wire[1..]));
    assert [] + Plain(c.wire[1..]) == Plain(c.wire[1..]) && c.queue + [] == c.queue;
    hide Plain, IsPlain;
  }

  lemma TakeKeeps(c: Conn, answer: (nat, string) -> seq<string>)
    requires c.waiting.Some? && InTransit(c, answer) && c.queue != [] && WellFormed(answer(|c.results|, c.waiting.value))
    ensures if Terminal(c.queue[0]) then
              Take(c).owed == [] && Plain(Take(c).wire) == [] && Take(c).results ==
                c.results + [(c.waiting.value, Collected(answer(|c.results|, c.waiting.value)))]
            else InTransit(Take(c), answer)
  {
    var all := answer(|c.results|, c.waiting.value);
    var reply, rest := c.queue[0], c.queue[1..];
    assert all == (c.collected + [reply]) + rest + Plain(c.wire) + c.owed;
    assert all[|c.collected|] == reply;
    hide Plain, Collected;
    if Terminal(reply) {
      assert |c.collected| == |all| - 1;
      assert all == c.collected + [reply];
    } else {
      assert |c.collected| != |all| - 1;
    }
  }

  lemma NotifyKeeps(c: Conn, line: string, answer: (nat, string) -> seq<string>)
    requires Inv(c, answer)
    ensures Inv(Next(c, PeerNotifies(line), answer), answer)
  {
    PlainAppend(c.wire, line);
    assert Plain(c.wire) + [] == Plain(c.wire);
    hide Plain;
  }

  lemma IdleDelivers(c: Conn, answer: (nat, string) -> seq<string>)
    requires c.wire != [] && Plain(c.wire) == []
    ensures Plain(c.wire[1..]) == [] && !IsPlain(c.wire[0])
  {
    PlainHead(c.wire);
    hide Plain;
  }

  ghost predicate Faithful(c: Conn, answer: (nat, string) -> seq<string>) {
    && |c.results| <= |c.begun|
    && forall i :: 0 <= i < |c.results| ==> c.results[i] == (c.begun[i], Collected(answer(i, c.begun[i])))
  }

  ghost predicate AnswersWell(answer: (nat, string) -> seq<string>) {
    forall n, command :: WellFormed(answer(n, command))
  }

  lemma StartKeeps(c: Conn, a: Action, answer: (nat, string) -> seq<string>)
    requires AnswersWell(answer) && Inv(c, answer)
    requires a.Begin? || a.PeerAnswers? || a.Stray?
    ensures Inv(Next(c, a, answer), answer)
  {
    hide Plain, FirstEnd;
    match a
    case Begin(command) =>
      if c.waiting.None? {
        assert c.asked + [command] == [command];
      }
    case PeerAnswers =>
      if c.asked != [] && c.owed == [] {
        var reply := answer(|c.results|, c.asked[0]);
        assert WellFormed(reply);
        assert [] + [] + [] + reply == reply;
      }
    case Stray(line) =>
  }

  lemma NextKeeps(c: Conn, a: Action, answer: (nat, string) -> seq<string>)
    requires AnswersWell(answer) && Inv(c, answer)
    ensures Inv(Next(c, a, answer), answer)
    ensures Faithful(c, answer) ==> Faithful(Next(c, a, answer), answer)
  {
    hide Plain, Collected, FirstEnd, IsPlain;
    match a
    case PeerNotifies(line) => NotifyKeeps(c, line, answer);
    case PeerSends =>
      if c.owed != [] {
        assert InTransit(c, answer);
        LastOwed(c, answer);
        SendKeeps(c, answer);
      }
    case ReaderDelivers =>
      if c.wire != [] {
        if c.waiting.Some? && InTransit(c, answer) {
          DeliverKeeps(c, answer);
        } else {
          IdleDelivers(c, answer);
        }
      }
    case CallerTakes =>
      if c.waiting.Some? && c.queue != [] {
        assert WellFormed(answer(|c.results|, c.waiting.value));
        TakeKeeps(c, answer);
      }
    case _ => StartKeeps(c, a, answer);
  }

  lemma LastOwed(c: Conn, answer: (nat, string) -> seq<string>)
    requires AnswersWell(answer) && c.waiting.Some? && InTransit(c, answer) && c.owed != []
    ensures IsPlain(c.owed[0])
  {
    var all := answer(|c.results|, c.waiting.value);
    assert WellFormed(all);
    var k := |c.collected + c.queue + Plain(c.wire)|;
    assert all[k] == c.owed[0];
    hide Plain, FirstEnd, IsPlain;
  }

  lemma {:induction false} RunKeeps(stale: seq<string>, actions: seq<Action>, answer: (nat, string) -> seq<string>)
    requires AnswersWell(answer)
    ensures var c := Run(Quiet(stale), actions, answer); Inv(c, answer) && Faithful(c, answer)
  {
    if actions == [] {
      assert Plain([]) == [];
    } else {
      RunKeeps(stale, actions[..|actions| - 1], answer);
      hide Inv, Faithful, AnswersWell;
      NextKeeps(Run(Quiet(stale), actions[..|actions| - 1], answer), actions[|actions| - 1], answer);
    }
  }

  /**
   Whatever the interleaving, whatever notifications arrive in between and whatever stale lines were queued: the
   i-th command returns what the peer answered to it, the i-th, whole and unmixed, also where the same command was
   asked before and answered differently.
   */
  lemma EachCommandGetsItsOwnReply(stale: seq<string>, actions: seq<Action>, answer: (nat, string) -> seq<string>, i: nat)
    requires AnswersWell(answer)
    requires i < |Run(Quiet(stale), actions, answer).results|
    ensures var c := Run(Quiet(stale), actions, answer);
            i < |c.begun| && c.results[i] == (c.begun[i], Collected(answer(i, c.begun[i])))
  {
    RunKeeps(stale, actions, answer);
  }

  // ---- no command waits for ever ----

  /** How many steps the answer under way still has to take: to be given, sent, delivered and taken. */
  function Work(c: Conn, answer: (nat, string) -> seq<string>): nat {
    (if c.asked == [] then 0 else 1 + 3 * |answer(c.answered, c.asked[0])|) + 3 * |c.owed| + 2 * |c.wire| + |c.queue|
  }

  /** A step of the peer, the reader or the caller that does something towards the reply. */
  predicate Moves(c: Conn, a: Action, answer: (nat, string) -> seq<string>) {
    (a.PeerAnswers? || a.PeerSends? || a.ReaderDelivers? || a.CallerTakes?) && Next(c, a, answer) != c
  }

  lemma MoveLessens(c: Conn, a: Action, answer: (nat, string) -> seq<string>)
    requires Inv(c, answer) && c.waiting.Some? && Moves(c, a, answer)
    ensures Work(Next(c, a, answer), answer) < Work(c, answer)
  {
    hide Plain, Collected, Terminal;
    if a.PeerAnswers? {
      assert c.asked[1..] == [];
    }
  }

  /** While a command waits, somebody can always move. */
  lemma SomebodyMoves(c: Conn, answer: (nat, string) -> seq<string>) returns (a: Action)
    requires Inv(c, answer) && c.waiting.Some?
    ensures Moves(c, a, answer)
  {
    hide Collected, Terminal;
    if c.queue != [] {
      a := CallerTakes;
      assert |Take(c).queue| < |c.queue|;
    } else if c.wire != [] {
      a := ReaderDelivers;
      assert |c.wire[1..]| < |c.wire|;
    } else if c.owed != [] {
      a := PeerSends;
      assert |c.owed[1..]| < |c.owed|;
    } else {
      assert Plain(c.wire) == [];
      assert NotYet(c);
      a := PeerAnswers;
      assert |c.asked[1..]| < |c.asked|;
    }
  }

  /** The steps of a schedule that move the reply on, and those that put a notification before it. */
  function Moving(c: Conn, actions: seq<Action>, answer: (nat, string) -> seq<string>): nat {
    if actions == [] then 0
    else
      var earlier := actions[..|actions| - 1];
      Moving(c, earlier, answer) + if Moves(Run(c, earlier, answer), actions[|actions| - 1], answer) then 1 else 0
  }

  function Notifying(actions: seq<Action>): nat {
    if actions == [] then 0
    else Notifying(actions[..|actions| - 1]) + if actions[|actions| - 1].PeerNotifies? then 1 else 0
  }

  lemma OtherStep(c: Conn, a: Action, answer: (nat, string) -> seq<string>)
    requires Inv(c, answer) && c.waiting.Some? && !Moves(c, a, answer)
    ensures Work(Next(c, a, answer), answer) <= Work(c, answer) + if a.PeerNotifies? then 2 else 0
  {
    hide Plain, Collected, Terminal;
  }

  lemma ResultsGrow(c: Conn, a: Action, answer: (nat, string) -> seq<string>)
    ensures |c.results| <= |Next(c, a, answer).results|
    ensures c.waiting.Some? && |Next(c, a, answer).results| == |c.results| ==> Next(c, a, answer).waiting.Some?
  {
    hide Plain, Collected, Terminal;
  }

  /**
   Whatever the schedule, a waiting command that has not finished has used up its work: it is not kept waiting by
   more effective steps than its answer needs, and two more for each notification sent meanwhile.
   */
  lemma {:induction false} WaitIsBounded(c: Conn, actions: seq<Action>, answer: (nat, string) -> seq<string>)
    requires AnswersWell(answer) && Inv(c, answer) && c.waiting.Some?
    requires |Run(c, actions, answer).results| == |c.results|
    ensures Inv(Run(c, actions, answer), answer) && Run(c, actions, answer).waiting.Some?
    ensures Moving(c, actions, answer) + Work(Run(c, actions, answer), answer) <= Work(c, answer) + 2 * Notifying(actions)
  {
    if actions == [] {
    } else {
      var earlier, a := actions[..|actions| - 1], actions[|actions| - 1];
      var before := Run(c, earlier, answer);
      ResultsFrom(c, earlier, answer);
      ResultsGrow(before, a, answer);
      hide Inv, Work, Next, Moves, AnswersWell;
      WaitIsBounded(c, earlier, answer);
      NextKeeps(before, a, answer);
      if Moves(before, a, answer) {
        MoveLessens(before, a, answer);
        assert !a.PeerNotifies? by { MovesNoNotice(before, a, answer); }
      } else {
        OtherStep(before, a, answer);
      }
    }
  }

  lemma MovesNoNotice(c: Conn, a: Action, answer: (nat, string) -> seq<string>)
    ensures Moves(c, a, answer) ==> !a.PeerNotifies?
  {
    hide Next;
  }

  lemma {:induction false} ResultsFrom(c: Conn, actions: seq<Action>, answer: (nat, string) -> seq<string>)
    ensures |c.results| <= |Run(c, actions, answer).results|
  {
    if actions == [] {
    } else {
      ResultsFrom(c, actions[..|actions| - 1], answer);
      ResultsGrow(Run(c, actions[..|actions| - 1], answer), actions[|actions| - 1], answer);
      hide Next;
    }
  }

  /** And from every reachable state there is a way to finish it, with its own answer. */
  lemma {:induction false} CanFinish(c: Conn, answer: (nat, string) -> seq<string>) returns (more: seq<Action>)
    requires AnswersWell(answer) && Inv(c, answer) && Faithful(c, answer) && c.waiting.Some?
    ensures var c' := Run(c, more, answer);
            && c'.waiting.None? && |c'.results| == |c.results| + 1
            && c'.results[|c.results|] == (c.waiting.value, Collected(answer(|c.results|, c.waiting.value)))
    decreases Work(c, answer)
  {
    var a := SomebodyMoves(c, answer);
    var next := Next(c, a, answer);
    MoveLessens(c, a, answer);
    NextKeeps(c, a, answer);
    MovesOrFinishes(c, a, answer);
    assert [a][..0] == [] && Run(c, [a], answer) == next;
    hide Inv, Work, Next, Moves, AnswersWell, Collected;
    if next.waiting.None? {
      more := [a];
    } else {
      var rest := CanFinish(next, answer);
      more := [a] + rest;
      RunOn(c, [a], rest, answer);
    }
  }

  lemma MovesOrFinishes(c: Conn, a: Action, answer: (nat, string) -> seq<string>)
    requires AnswersWell(answer) && Inv(c, answer) && Faithful(c, answer) && c.waiting.Some? && Moves(c, a, answer)
    ensures var c' := Next(c, a, answer);
            if c'.waiting.None? then
              |c'.results| == |c.results| + 1
              && c'.results[|c.results|] == (c.waiting.value, Collected(answer(|c.results|, c.waiting.value)))
            else c'.waiting == c.waiting && c'.results == c.results
  {
    NextKeeps(c, a, answer);
    hide Plain, Collected, Terminal, InTransit;
  }

  lemma {:induction false} RunOn(c: Conn, a: seq<Action>, b: seq<Action>, answer: (nat, string) -> seq<string>)
    ensures Run(c, a + b, answer) == Run(Run(c, a, answer), b, answer)
  {
    if b == [] {
      assert a + b == a;
    } else {
      assert (a + b)[..|a + b| - 1] == a + b[..|b| - 1];
      hide Next;
      RunOn(c, a, b[..|b| - 1], answer);
    }
  }

  /** Hence over every run: no state is reached in which a command can no longer finish. */
  lemma NobodyIsStuck(stale: seq<string>, actions: seq<Action>, answer: (nat, string) -> seq<string>) returns (more: seq<Action>)
    requires AnswersWell(answer) && Run(Quiet(stale), actions, answer).waiting.Some?
    ensures var (c, c') := (Run(Quiet(stale), actions, answer), Run(Quiet(stale), actions + more, answer));
            && c'.waiting.None? && |c'.results| == |c.results| + 1
            && c'.results[|c.results|] == (c.waiting.value, Collected(answer(|c.results|, c.waiting.value)))
  {
    RunKeeps(stale, actions, answer);
    hide Run, Inv, Faithful, AnswersWell, Collected;
    more := CanFinish(Run(Quiet(stale), actions, answer), answer);
    RunOn(Quiet(stale), actions, more, answer);
  }

  // ---- notifications ----

  ghost predicate Heard(c: Conn) {
    c.heard + Filter(c.wire, IsNotification) == c.emitted
  }

  lemma NotedAppend(wire: seq<string>, line: string)
    ensures Filter(wire + [line], IsNotification) == Filter(wire, IsNotification) + if IsNotification(line) then [line] else []
  {
    FilterAppend(wire, [line], IsNotification);
    assert Filter([line], IsNotification) == if IsNotification(line) then [line] else [] by { assert [line][..0] == []; }
  }

  lemma NotedHead(wire: seq<string>)
    requires wire != []
    ensures Filter(wire, IsNotification) == (if IsNotification(wire[0]) then [wire[0]] else []) + Filter(wire[1..], IsNotification)
  {
    assert wire == [wire[0]] + wire[1..];
    FilterAppend([wire[0]], wire[1..], IsNotification);
    assert Filter([wire[0]], IsNotification) == if IsNotification(wire[0]) then [wire[0]] else [] by { assert [wire[0]][..0] == []; }
  }

  lemma HeardSent(c: Conn, line: string)
    requires Heard(c)
    ensures !IsNotification(line) ==> Heard(c.(wire := c.wire + [line]))
    ensures IsNotification(line) ==> Heard(c.(wire := c.wire + [line], emitted := c.emitted + [line]))
  {
    hide Filter, IsNotification;
    NotedAppend(c.wire, line);
    var noted := Filter(c.wire, IsNotification);
    assert noted + [] == noted;
    assert (c.heard + noted) + [line] == c.heard + (noted + [line]);
  }

  lemma HeardDelivered(c: Conn)
    requires Heard(c) && c.wire != []
    ensures Heard(c.(wire := c.wire[1..], heard := c.heard + if IsPlain(c.wire[0]) then [] else [c.wire[0]]))
  {
    hide Filter, IsNotification;
    NotedHead(c.wire);
    var later := Filter(c.wire[1..], IsNotification);
    assert [] + later == later && c.heard + [] == c.heard;
    assert c.heard + ([c.wire[0]] + later) == (c.heard + [c.wire[0]]) + later;
  }

  lemma SameHeard(c: Conn, c': Conn)
    requires Heard(c) && c'.wire == c.wire && c'.heard == c.heard && c'.emitted == c.emitted
    ensures Heard(c')
  {
  }

  lemma HeardKeeps(c: Conn, a: Action, answer: (nat, string) -> seq<string>)
    requires AnswersWell(answer) && Inv(c, answer) && Heard(c)
    ensures Heard(Next(c, a, answer))
  {
    var c' := Next(c, a, answer);
    if a.PeerSends? && c.owed != [] {
      LastOwed(c, answer);
      HeardSent(c, c.owed[0]);
      hide Heard, Inv;
      SameHeard(c.(wire := c.wire + [c.owed[0]]), c');
    } else if a.PeerNotifies? {
      HeardSent(c, a.line);
      hide Heard, Inv;
    } else if a.ReaderDelivers? && c.wire != [] {
      HeardDelivered(c);
      hide Heard, Inv, IsPlain;
      SameHeard(c.(wire := c'.wire, heard := c'.heard), c');
    } else {
      hide Heard, Inv, IsPlain, Collected, Terminal;
      SameHeard(c, c');
    }
  }

  /** Every notification is passed on once, in the order sent, while commands are under way as at any other time. */
  lemma {:induction false} NotificationsAllHeard(stale: seq<string>, actions: seq<Action>, answer: (nat, string) -> seq<string>)
    requires AnswersWell(answer)
    ensures Heard(Run(Quiet(stale), actions, answer))
  {
    if actions == [] {
      assert Filter<string>([], IsNotification) == [];
    } else {
      NotificationsAllHeard(stale, actions[..|actions| - 1], answer);
      RunKeeps(stale, actions[..|actions| - 1], answer);
      hide Inv, Faithful, Heard, AnswersWell;
      HeardKeeps(Run(Quiet(stale), actions[..|actions| - 1], answer), actions[|actions| - 1], answer);
    }
  }
}
