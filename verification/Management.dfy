/**
 The client of OpenVPN's management interface: a reader that turns bytes into notifications and replies, and
 commands that collect the reply lines meant for them.
 */
module Management {
  import opened Framing

  const NEWLINE: Byte := 10

  /** What the reader leaves in the response queue when the connection ends. */
  const EOF := "\0EOF"

  /** What the event queue holds: notifications, and at the end the mark that stops the dispatcher. */
  datatype Notification = Notification(kind: string, payload: string) | Stop

  const GONE := Notification("DISCONNECTED", "")

  function StripCr(s: string): (r: string)
    ensures r <= s && (r == [] || r[|r| - 1] != '\r')
    ensures forall k :: |r| <= k < |s| ==> s[k] == '\r'
  {
    if s != [] && s[|s| - 1] == '\r' then StripCr(s[..|s| - 1]) else s
  }

  predicate IsNotification(line: string) {
    line != [] && line[0] == '>'
  }

  /** `>KIND:payload`; without a colon it is all kind. */
  function Parse(line: string, upper: string -> string): Notification
    requires IsNotification(line)
  {
    var body := line[1..];
    var i := Find(body, ':');
    Notification(upper(body[..i]), if i < |body| then body[i + 1..] else "")
  }

  /** The first colon ends the kind; the payload may hold more of them, and may be missing. */
  lemma ParsedParts(kind: string, payload: string, upper: string -> string)
    requires ':' !in kind
    ensures Parse(">" + kind + ":" + payload, upper) == Notification(upper(kind), payload)
    ensures Parse(">" + kind, upper) == Notification(upper(kind), "")
  {
    var line := ">" + kind + ":" + payload;
    assert line[1..] == kind + ":" + payload && (">" + kind)[1..] == kind;
    FindColon(kind, ":" + payload);
    FindColon(kind, "");
    assert kind + "" == kind;
    assert (kind + ":" + payload)[|kind| + 1..] == payload && (kind + ":" + payload)[..|kind|] == kind;
    assert kind + ":" + payload == kind + (":" + payload);
  }

  lemma FindColon(kind: string, rest: string)
    requires ':' !in kind && (rest == "" || rest[0] == ':')
    ensures Find(kind + rest, ':') == |kind|
  {
    var all := kind + rest;
    var i := Find(all, ':');
    assert forall k :: 0 <= k < |kind| ==> all[k] == kind[k] && kind[k] in kind;
    if rest != "" {
      assert all[|kind|] == ':';
    }
  }

  /** The text of each line. */
  function Texts(lines: seq<seq<Byte>>, decode: seq<Byte> -> string): (r: seq<string>)
    ensures |r| == |lines|
  {
    if lines == [] then [] else Texts(lines[..|lines| - 1], decode) + [StripCr(decode(lines[|lines| - 1]))]
  }

  function Replies(texts: seq<string>): seq<string> {
    if texts == [] then []
    else
      var t := texts[|texts| - 1];
      Replies(texts[..|texts| - 1]) + if IsNotification(t) then [] else [t]
  }

  function Notifications(texts: seq<string>, upper: string -> string): seq<Notification> {
    if texts == [] then []
    else
      var t := texts[|texts| - 1];
      Notifications(texts[..|texts| - 1], upper) + if IsNotification(t) then [Parse(t, upper)] else []
  }

  lemma {:induction false} TextsAppend(a: seq<seq<Byte>>, b: seq<seq<Byte>>, decode: seq<Byte> -> string)
    ensures Texts(a + b, decode) == Texts(a, decode) + Texts(b, decode)
  {
    if b == [] {
      assert a + b == a;
    } else {
      assert (a + b)[..|a + b| - 1] == a + b[..|b| - 1];
      TextsAppend(a, b[..|b| - 1], decode);
    }
  }

  lemma {:induction false} QueuesAppend(a: seq<string>, b: seq<string>, upper: string -> string)
    ensures Replies(a + b) == Replies(a) + Replies(b)
    ensures Notifications(a + b, upper) == Notifications(a, upper) + Notifications(b, upper)
  {
    if b == [] {
      assert a + b == a;
    } else {
      assert (a + b)[..|a + b| - 1] == a + b[..|b| - 1];
      QueuesAppend(a, b[..|b| - 1], upper);
      hide Parse;
    }
  }

  /** Everything put into the two queues. */
  datatype Queues = Queues(responses: seq<string>, events: seq<Notification>)

  /** The queues after some lines have been dispatched. */
  function Fed(q: Queues, lines: seq<seq<Byte>>, decode: seq<Byte> -> string, upper: string -> string): Queues {
    var texts := Texts(lines, decode);
    Queues(q.responses + Replies(texts), q.events + Notifications(texts, upper))
  }

  lemma FedTwice(q: Queues, a: seq<seq<Byte>>, b: seq<seq<Byte>>, decode: seq<Byte> -> string, upper: string -> string)
    ensures Fed(Fed(q, a, decode, upper), b, decode, upper) == Fed(q, a + b, decode, upper)
  {
    TextsAppend(a, b, decode);
    QueuesAppend(Texts(a, decode), Texts(b, decode), upper);
    hide Texts, Replies, Notifications;
    Associates(q.responses, Replies(Texts(a, decode)), Replies(Texts(b, decode)));
    Associates(q.events, Notifications(Texts(a, decode), upper), Notifications(Texts(b, decode), upper));
  }

  lemma FedNone(q: Queues, decode: seq<Byte> -> string, upper: string -> string)
    ensures Fed(q, [], decode, upper) == q
  {
  }

  lemma FedOne(q: Queues, raw: seq<Byte>, decode: seq<Byte> -> string, upper: string -> string)
    ensures var t := StripCr(decode(raw));
            Fed(q, [raw], decode, upper) ==
            if t != "" && t[0] == '>' then q.(events := q.events + [Parse(t, upper)])
            else q.(responses := q.responses + [t])
  {
    var t: string := StripCr(decode(raw));
    assert IsNotification(t) == (t != "" && t[0] == '>');
    hide Parse, IsNotification, StripCr;
    assert [raw][..0] == [];
    assert Texts([raw], decode) == [t];
    var one: seq<string> := [t];
    assert one[..0] == [];
    assert Replies([t]) == if IsNotification(t) then [] else [t];
    assert Notifications([t], upper) == if IsNotification(t) then [Parse(t, upper)] else [];
    assert q.responses + [] == q.responses && q.events + [] == q.events;
  }

  /** What `recv` handed over until it returned nothing or failed. */
  function Received(chunks: seq<seq<Byte>>): seq<Byte> {
    if chunks == [] || chunks[0] == [] then [] else chunks[0] + Received(chunks[1..])
  }

  lemma NothingYet(q: Queues, decode: seq<Byte> -> string, upper: string -> string)
    ensures CutLines<Byte>([], NEWLINE) == Cut([], []) && Fed(q, [], decode, upper) == q
  {
    FedNone(q, decode, upper);
  }

  // ---- commands ----

  datatype Outcome = Answer(lines: seq<string>) | TimedOut | Closed | Refused(line: string) | NotConnected

  predicate Finishes(reply: string) {
    reply == "END" || "SUCCESS:" <= reply
  }

  predicate Terminal(reply: string) {
    reply == EOF || Finishes(reply) || "ERROR:" <= reply
  }

  /** Where the first line stands that ends the wait; past the end if none arrives in time. */
  function FirstEnd(arrivals: seq<string>): (i: nat)
    ensures i <= |arrivals| && forall k :: 0 <= k < i ==> !Terminal(arrivals[k])
    ensures i < |arrivals| ==> Terminal(arrivals[i])
  {
    if arrivals == [] || Terminal(arrivals[0]) then 0 else 1 + FirstEnd(arrivals[1..])
  }

  function Collected(arrivals: seq<string>): Outcome {
    var i := FirstEnd(arrivals);
    if i == |arrivals| then TimedOut
    else if arrivals[i] == EOF then Closed
    else if arrivals[i] == "END" then Answer(arrivals[..i])
    else if "SUCCESS:" <= arrivals[i] then Answer(arrivals[..i + 1])
    else Refused(arrivals[i])
  }

  /** A line that neither ends the reply nor the connection. */
  predicate Plain(line: string) {
    line != "\0EOF" && line != "END" && !("SUCCESS:" <= line) && !("ERROR:" <= line)
  }

  /**
   What a command returns, by the first line that is not plain: the lines before `END`; those and the line itself
   where it reports success; an error; or the end of the connection.  Without such a line it times out.
   */
  lemma CollectedExactly(arrivals: seq<string>, i: nat)
    requires i <= |arrivals| && forall k :: 0 <= k < i ==> Plain(arrivals[k])
    ensures i == |arrivals| ==> Collected(arrivals) == TimedOut
    ensures i < |arrivals| && arrivals[i] == "END" ==> Collected(arrivals) == Answer(arrivals[..i])
    ensures i < |arrivals| && "SUCCESS:" <= arrivals[i] ==> Collected(arrivals) == Answer(arrivals[..i] + [arrivals[i]])
    ensures i < |arrivals| && "ERROR:" <= arrivals[i] ==> Collected(arrivals) == Refused(arrivals[i])
    ensures i < |arrivals| && arrivals[i] == "\0EOF" ==> Collected(arrivals) == Closed
  {
    var first := FirstEnd(arrivals);
    assert forall k :: 0 <= k < i ==> !Terminal(arrivals[k]);
    assert first >= i;
    if i < |arrivals| && !Plain(arrivals[i]) {
      assert Terminal(arrivals[i]);
      assert first == i;
      assert arrivals[..i + 1] == arrivals[..i] + [arrivals[i]];
      Prefixed(arrivals[i]);
    }
  }

  /** The four ways a line can end a reply exclude each other. */
  lemma Prefixed(line: string)
    ensures "SUCCESS:" <= line ==> line != "END" && line != "\0EOF" && !("ERROR:" <= line)
    ensures "ERROR:" <= line ==> line != "END" && line != "\0EOF"
  {
    assert "SUCCESS:"[0] == 'S' && "ERROR:"[0] == 'E' && "ERROR:"[1] == 'R' && "END"[1] == 'N' && "\0EOF"[0] == '\0';
  }

  class ManagementClient {
    const decode: seq<Byte> -> string
    const upper: string -> string
    var isOpen: bool
    /** Everything put into each queue so far. */
    var responses: seq<string>
    var events: seq<Notification>

    constructor (decode: seq<Byte> -> string, upper: string -> string)
      ensures this.decode == decode && this.upper == upper
      ensures isOpen && responses == [] && events == []
    {
      this.decode, this.upper := decode, upper;
      isOpen, responses, events := true, [], [];
    }

    ghost function View(): Queues
      reads this
    {
      Queues(responses, events)
    }

    method Dispatch(line: string)
      modifies this`responses, this`events
      ensures View() == if IsNotification(line) then old(View()).(events := old(events) + [Parse(line, upper)])
                        else old(View()).(responses := old(responses) + [line])
    {
      if IsNotification(line) {
        var body := line[1..];
        var i := Find(body, ':');
        var payload := "";
        if i < |body| {
          payload := body[i + 1..];
        }
        events := events + [Notification(upper(body[..i]), payload)];
      } else {
        responses := responses + [line];
      }
    }

    /** The inner loop: dispatches every complete line in the buffer and keeps the rest. */
    method DispatchLines(received: seq<Byte>) returns (buffer: seq<Byte>)
      modifies this`responses, this`events
      ensures buffer == CutLines(received, NEWLINE).rest
      ensures View() == Fed(old(View()), CutLines(received, NEWLINE).lines, decode, upper)
    {
      hide Fed;
      buffer := received;
      FedNone(View(), decode, upper);
      ghost var lines: seq<seq<Byte>> := [];
      while Find(buffer, NEWLINE) < |buffer|
        invariant CutLines(received, NEWLINE) == Cut(lines + CutLines(buffer, NEWLINE).lines, CutLines(buffer, NEWLINE).rest)
        invariant View() == Fed(old(View()), lines, decode, upper)
        decreases |buffer|
      {
        var i := Find(buffer, NEWLINE);
        var raw := buffer[..i];
        FedOne(View(), raw, decode, upper);
        FedTwice(old(View()), lines, [raw], decode, upper);
        Associates(lines, [raw], CutLines(buffer[i + 1..], NEWLINE).lines);
        hide IsNotification, Parse, StripCr;
        buffer := buffer[i + 1..];
        lines := lines + [raw];
        Dispatch(StripCr(decode(raw)));
      }
      assert lines + [] == lines;
    }

    /** The reader thread: what it puts into the two queues depends on the bytes alone, not on their chunks. */
    method ReadLoop(chunks: seq<seq<Byte>>)
      modifies this
      ensures !isOpen
      ensures var fed := Fed(old(View()), CutLines(Received(chunks), NEWLINE).lines, decode, upper);
              View() == Queues(fed.responses + [EOF], fed.events + [GONE, Stop])
    {
      hide Fed, CutLines;
      var buffer: seq<Byte> := [];
      var i := 0;
      ghost var sofar: seq<Byte> := [];
      NothingYet(old(View()), decode, upper);
      while i < |chunks|
        invariant 0 <= i <= |chunks|
        invariant Received(chunks) == sofar + Received(chunks[i..])
        invariant buffer == CutLines(sofar, NEWLINE).rest
        invariant View() == Fed(old(View()), CutLines(sofar, NEWLINE).lines, decode, upper)
      {
        var chunk := chunks[i];
        if chunk == [] {
          break;
        }
        CutInTwo(sofar, chunk, NEWLINE);
        FedTwice(old(View()), CutLines(sofar, NEWLINE).lines, CutLines(buffer + chunk, NEWLINE).lines, decode, upper);
        assert chunks[i..][1..] == chunks[i + 1..];
        Associates(sofar, chunk, Received(chunks[i + 1..]));
        buffer := DispatchLines(buffer + chunk);
        sofar := sofar + chunk;
        i := i + 1;
      }
      assert sofar + [] == sofar;
      isOpen := false;
      responses := responses + [EOF];
      events := events + [GONE, Stop];
    }

    /** What `command` makes of the lines that arrive for it; running out of them is the timeout. */
    method Command(arrivals: seq<string>) returns (outcome: Outcome)
      ensures outcome == if isOpen then Collected(arrivals) else NotConnected
    {
      if !isOpen {
        return NotConnected;
      }
      var collected: seq<string> := [];
      var i := 0;
      while i < |arrivals|
        invariant 0 <= i <= |arrivals| && collected == arrivals[..i]
        invariant i <= FirstEnd(arrivals)
      {
        var reply := arrivals[i];
        if reply == EOF {
          return Closed;
        }
        if reply == "END" || "SUCCESS:" <= reply {
          if "SUCCESS:" <= reply {
            collected := collected + [reply];
          }
          return Answer(collected);
        }
        if "ERROR:" <= reply {
          return Refused(reply);
        }
        collected := collected + [reply];
        i := i + 1;
      }
      return TimedOut;
    }
  }
}
