/**
 Runs in which no local send fails: the state decides which payload is outstanding, and a chat
 payload is only ever issued when nothing is outstanding.
 */
module StopAndWait {
  import opened Window
  import opened Payloads
  import opened Protocol
  import opened Phases
  import Commands
  import Udp
  import Tcp

  /** The loop may still hand this iteration to the stdin handler. */
  predicate PollsStdin(c: Client) {
    (c.control.Waiting? && c.control.stdin) || (c.control.Handling? && c.control.stdin)
  }

  predicate Closing(c: Client) {
    c.state == StateError || c.state == StateEnd
  }

  /** The state decides the outstanding payload. */
  predicate Decided(c: Client) {
    && (c.state == StateStart ==> c.confirmed && c.created == 0)
    && (c.state == StateNotAuth ==> c.confirmed)
    && (c.state == StateAuth ==> c.current.body.Auth?)
    && (c.state == StateOpen && !c.confirmed ==> c.current.body.Join? || c.current.body.Message?)
    && (c.state == StateError ==> c.current.body.Err?)
    && (c.state == StateEnd && !c.confirmed && c.control != Stopped ==> c.current.body.Bye? || c.current.body.Err?)
  }

  /** An error is left pending only beside an unconfirmed datagram, or over TCP after an ERR without a name. */
  predicate Pending(c: Client) {
    && (c.mode == TCP ==> c.confirmed)
    && (c.error ==> if c.mode == UDP then !c.confirmed else Closing(c) && c.name == [])
  }

  predicate Settled(c: Client) {
    && Named(c) && Decided(c) && Pending(c)
    && (PollsStdin(c) ==> c.state != StateAuth && (c.confirmed || Closing(c)))
    && (!c.control.Handling? && c.state == StateError ==> !c.confirmed)
  }

  /** client_send without local failures: the payload itself, or an ERR in its place, or over TCP nothing at all. */
  predicate SendOk(c: Client, body: Body) {
    var d := ClientSend(c, body, NO_FAULTS);
    && Framed(c, d) && d.confirmed == (c.mode == TCP) && d.created > c.created
    && if !c.error && (c.mode == UDP || Tcp.Printable(body)) then
         d.current.body == body && d.state == c.state && !d.error
       else
         d.current.body.Err? && if c.mode == TCP && c.name == [] then d.error && d.state == StateEnd
                               else !d.error && d.state == StateError
  }

  /** Over TCP nothing is ever outstanding. */
  predicate Reliable(c: Client) {
    c.mode == TCP ==> c.confirmed
  }

  lemma SendsOk(c: Client, body: Body)
    requires Reliable(c) && !body.Confirm?
    ensures SendOk(c, body)
  {
    hide Udp.Datagram, Tcp.Encode;
  }

  lemma ByeSettled(c: Client)
    requires Named(c) && Reliable(c)
    ensures var d := ClientSend(c, Body.Bye, NO_FAULTS).(state := StateEnd);
            Settled(d) && Settled(d.(control := Checking))
  {
    hide ClientSend;
    SendsOk(c, Body.Bye);
  }

  lemma MalformedSettled(c: Client)
    requires Settled(c) && c.control.Handling?
    ensures Settled(SendMalformed(c, NO_FAULTS))
  {
    hide ClientSend;
    SendsOk(c, Err(c.name, MalformedText()));
  }

  lemma ProcessSettled(c: Client, p: Payload)
    requires Settled(c) && c.control.Handling? && c.confirmed && !c.error && !p.body.Confirm?
    ensures Settled(Process(c, p, NO_FAULTS))
  {
    hide ClientSend, SendMalformed, Named, HandleReply;
    var d := c.(received := c.received + {p.id}, log := c.log + [Processed(p, c.state)]);
    assert Named(d) && Settled(d) by {
      NamedFrame(c, d);
    }
    match p.body
    case Auth(_, _, _) => MalformedSettled(d);
    case Join(_, _) => MalformedSettled(d);
    case Reply(result, _, _) => ReplySettled(d, result);
    case Message(_, _) =>
    case Err(_, _) => ByeSettled(d);
    case Bye =>
      ByeSettled(d);
      EndSettled(d);
  }

  lemma NamedFrame(c: Client, d: Client)
    requires Named(c) && d.name == c.name && d.state == c.state
    ensures Named(d)
  {
  }

  lemma EndSettled(c: Client)
    requires Settled(c) && c.confirmed
    ensures Settled(c.(state := StateEnd))
  {
  }

  lemma ReplySettled(c: Client, result: bool)
    requires Settled(c) && c.control.Handling? && c.confirmed && !c.error
    ensures Settled(HandleReply(c, result))
  {
  }

  lemma SocketSettled(c: Client, rx: Reception)
    requires Settled(c) && c.control.Handling?
    ensures Settled(HandleSocket(c, rx, NO_FAULTS))
  {
    if !rx.Ignored? {
      var code := if rx.Got? then TypeCode(rx.p.body) else rx.code;
      var id := if rx.Got? then rx.p.id else rx.id;
      var a := c.(error := c.error || rx.Bad?);
      if code == CONFIRM || a.confirmed {
        var b := if code != CONFIRM then Transmit(a, Payload(id, Confirm), false) else a;
        var log := b.log;
        assert b == a.(log := log);
        hide Transmit, SendMalformed, Process;
        assert Settled(c.(log := log));
        if b.error {
          assert Settled(b.(error := false));
          MalformedSettled(b.(error := false));
        } else if rx.Got? && !rx.p.body.Confirm? {
          ProcessSettled(b, rx.p);
        }
      }
    }
  }

  lemma AuthSettled(c: Client, u: seq<byte>, s: seq<byte>, d: seq<byte>)
    requires Settled(c) && c.control.Handling? && !c.control.stdin && !c.error
    requires FieldOk(Username, u) && FieldOk(Secret, s) && FieldOk(DisplayName, d)
    ensures Settled(ClientSend(c.(name := d), Auth(u, d, s), NO_FAULTS).(state := StateAuth))
  {
    hide ClientSend;
    SendsOk(c.(name := d), Auth(u, d, s));
  }

  lemma TalkSettled(c: Client, body: Body)
    requires Settled(c) && c.control.Handling? && !c.error && c.state == StateOpen
    requires (body.Join? || body.Message?) && WellFormed(body) && !c.control.stdin
    ensures Settled(ClientSend(c, body, NO_FAULTS))
  {
    hide ClientSend;
    SendsOk(c, body);
  }

  lemma ObeySettled(c: Client, cmd: Commands.Command)
    requires Settled(c) && c.control.Handling? && !c.control.stdin && !c.error && Commands.ValidCommand(cmd)
    ensures Settled(Obey(c, cmd, NO_FAULTS))
  {
    match cmd
    case Say(text) =>
      if c.state == StateOpen {
        TalkSettled(c, Message(c.name, text));
      }
    case Authenticate(u, s, d) =>
      AuthSettled(c, u, s, d);
    case JoinChannel(ch) =>
      if c.state == StateOpen {
        TalkSettled(c, Join(ch, c.name));
      }
    case Rename(d) =>
    case Help =>
    case Clear =>
    case Exit => ExitSettled(c);
  }

  lemma ExitSettled(c: Client)
    requires Settled(c) && c.control.Handling? && !c.error
    ensures Settled(ClientSend(c.(state := StateEnd), Body.Bye, NO_FAULTS))
  {
    hide ClientSend;
    SendsOk(c.(state := StateEnd), Body.Bye);
  }

  lemma InputSettled(c: Client, input: Input)
    requires Settled(c) && c.control.Handling? && !c.control.stdin
    ensures Settled(HandleInput(c, input, NO_FAULTS))
  {
    hide ClientSend, Obey, Understand, Commands.ValidCommand;
    match input
    case Eof(tail) => ByeSettled(c.(error := c.error || |tail| > BYTES_SIZE));
    case Line(text) =>
      if Understand(text).Some? && !c.error {
        UnderstandExact(text, Understand(text).value);
        ObeySettled(c, Understand(text).value);
      }
  }

  /** A failed poll: a BYE is issued, or after a pending error an ERR. */
  lemma PollErrorSettled(c: Client)
    requires Settled(c) && c.control.Waiting?
    ensures Settled(HandlePollError(c, NO_FAULTS).(control := Checking))
  {
    hide ClientSend, Named;
    SendsOk(c.(state := StateEnd), Body.Bye);
    EndNamed(c);
  }

  lemma EndNamed(c: Client)
    requires Named(c)
    ensures forall d: Client :: d.name == c.name && Closing(d) ==> Named(d)
  {
  }

  lemma SignalSettled(c: Client)
    requires Settled(c)
    ensures Settled(HandleSignal(c, NO_FAULTS))
  {
    if c.state != StateStart {
      ByeSettled(c);
    }
  }

  lemma StepSettled(c: Client, e: Event)
    requires Settled(c) && Timer(c) && Faultless(e)
    ensures Settled(Step(c, e))
  {
    hide ClientSend, HandleSocket, HandleInput, Receive, HandleSignal, HandlePollError;
    if Enabled(c, e) {
      match e
      case Socket(packet, f) => SocketSettled(c.(control := Handling(false, c.control.stdin)), Receive(c.mode, packet));
      case Stdin(input, f) => InputSettled(c.(control := Handling(c.control.socket, false)), input);
      case Signal(f) => SignalSettled(c);
      case PollError(f) => PollErrorSettled(c);
      case Finish(f) => ByeSettled(c);
      case Expire(f) =>
      case Ready(_, _) =>
      case Enter =>
    }
  }

  /** Over every run without local send failures the state decides the outstanding payload. */
  lemma {:induction false} RunSettled(mode: Mode, limit: nat, es: seq<Event>)
    requires AllFaultless(es)
    ensures Settled(Run(Init(mode, limit), es))
  {
    if es != [] {
      var init := es[..|es| - 1];
      RunSettled(mode, limit, init);
      KeptRun(mode, limit, init);
      StepSettled(Run(Init(mode, limit), init), es[|es| - 1]);
    }
  }

  // ---------------------------------------------------------------- stop and wait

  predicate IsChat(b: Body) {
    b.Auth? || b.Join? || b.Message?
  }

  /** The payloads issued, in order. */
  function Issues(log: seq<Entry>): seq<Payload> {
    if log == [] then []
    else
      var e := log[|log| - 1];
      Issues(log[..|log| - 1]) + if e.Issued? then [e.p] else []
  }

  /** The AUTH, JOIN and MSG payloads among `ps`, in order. */
  function Chats(ps: seq<Payload>): seq<Payload> {
    if ps == [] then []
    else
      var p := ps[|ps| - 1];
      Chats(ps[..|ps| - 1]) + if IsChat(p.body) then [p] else []
  }

  function ChatLog(c: Client): seq<Payload> {
    Chats(Issues(c.log))
  }

  lemma {:induction false} IssuesConcat(a: seq<Entry>, b: seq<Entry>)
    ensures Issues(a + b) == Issues(a) + Issues(b)
  {
    if b == [] {
      assert a + b == a;
    } else {
      var init := b[..|b| - 1];
      IssuesConcat(a, init);
      assert (a + b)[..|a + b| - 1] == a + init;
    }
  }

  lemma {:induction false} ChatsConcat(a: seq<Payload>, b: seq<Payload>)
    ensures Chats(a + b) == Chats(a) + Chats(b)
  {
    if b == [] {
      assert a + b == a;
    } else {
      var init := b[..|b| - 1];
      ChatsConcat(a, init);
      assert (a + b)[..|a + b| - 1] == a + init;
    }
  }

  predicate NoChat(es: seq<Entry>) {
    forall i :: 0 <= i < |es| ==> !(es[i].Issued? && IsChat(es[i].p.body))
  }

  lemma {:induction false} NoChatsIn(es: seq<Entry>)
    requires NoChat(es)
    ensures Chats(Issues(es)) == []
  {
    if es != [] {
      NoChatsIn(es[..|es| - 1]);
      var e := es[|es| - 1];
      ChatsConcat(Issues(es[..|es| - 1]), if e.Issued? then [e.p] else []);
      assert Chats([]) == [];
      assert e.Issued? ==> [e.p][..0] == [] && Chats([e.p]) == [];
    }
  }

  lemma ChatAdds(log: seq<Entry>, es: seq<Entry>)
    requires NoChat(es)
    ensures Chats(Issues(log + es)) == Chats(Issues(log))
  {
    IssuesConcat(log, es);
    ChatsConcat(Issues(log), Issues(es));
    NoChatsIn(es);
  }

  lemma ChatIssued(log: seq<Entry>, p: Payload, rest: seq<Entry>)
    requires NoChat(rest)
    ensures Chats(Issues(log + ([Issued(p)] + rest))) == Chats(Issues(log)) + if IsChat(p.body) then [p] else []
  {
    var mid := log + [Issued(p)];
    assert log + ([Issued(p)] + rest) == mid + rest;
    ChatAdds(mid, rest);
    assert mid[..|mid| - 1] == log;
    assert (Issues(log) + [p])[..|Issues(log)|] == Issues(log);
  }

  /** A send adds its payload to the chat payloads if it is one. */
  lemma ChatSend(c: Client, body: Body, f: Faults)
    ensures ChatLog(ClientSend(c, body, f))
            == ChatLog(c) + if IsChat(body) then [Payload(c.created % 0x1_0000, body)] else []
  {
    var rest := SendShape(c, body, f);
    hide ClientSend;
    ChatIssued(c.log, Payload(c.created % 0x1_0000, body), rest);
  }

  /** What a step does to the chat payloads issued and to the one outstanding. */
  ghost predicate Waits(c: Client, d: Client, matched: bool) {
    if ChatLog(d) == ChatLog(c) then
      Closing(d) || (d.current == c.current && (d.confirmed == c.confirmed || (matched && d.confirmed)))
    else
      && c.confirmed && !Closing(c) && d.created > c.created
      && ChatLog(d) == ChatLog(c) + [d.current] && !d.confirmed && !Closing(d)
  }

  /** The packet is a CONFIRM with the ID of the outstanding payload. */
  predicate Matches(c: Client, rx: Reception) {
    rx.Got? && rx.p.body.Confirm? && rx.p.id == c.current.id
  }

  /** The handler issues no chat payload, and closes or keeps what is outstanding. */
  ghost predicate Holds(c: Client, d: Client) {
    ChatLog(d) == ChatLog(c) && (Closing(d) || (d.current == c.current && d.confirmed == c.confirmed))
  }

  /** An action on a received payload never issues a chat payload. */
  lemma ProcessHolds(c: Client, p: Payload)
    requires !p.body.Confirm?
    ensures Holds(c, Process(c, p, NO_FAULTS))
  {
    hide ClientSend, Chats, Issues, SendMalformed;
    var d := c.(received := c.received + {p.id}, log := c.log + [Processed(p, c.state)]);
    ChatAdds(c.log, [Processed(p, c.state)]);
    assert Holds(c, d);
    match p.body
    case Auth(_, _, _) => MalformedHolds(d);
    case Join(_, _) => MalformedHolds(d);
    case Err(_, _) => ChatSend(d, Body.Bye, NO_FAULTS);
    case Bye => ChatSend(d, Body.Bye, NO_FAULTS);
    case _ =>
  }

  lemma MalformedHolds(c: Client)
    ensures Holds(c, SendMalformed(c, NO_FAULTS))
  {
    ChatSend(c, Err(c.name, MalformedText()), NO_FAULTS);
    hide ClientSend, Chats, Issues;
  }

  lemma SocketWaits(c: Client, rx: Reception)
    ensures Waits(c, HandleSocket(c, rx, NO_FAULTS), Matches(c, rx))
    ensures ChatLog(HandleSocket(c, rx, NO_FAULTS)) == ChatLog(c)
  {
    if !rx.Ignored? {
      var code := if rx.Got? then TypeCode(rx.p.body) else rx.code;
      var id := if rx.Got? then rx.p.id else rx.id;
      var a := c.(error := c.error || rx.Bad?);
      if code == CONFIRM || a.confirmed {
        var b := if code != CONFIRM then Transmit(a, Payload(id, Confirm), false) else a;
        var sent: seq<Entry> := [];
        assert c.log + [] == c.log;
        if code != CONFIRM {
          sent := TransmitShape(a, Payload(id, Confirm), false);
        }
        ChatAdds(c.log, sent);
        hide Transmit, SendMalformed, Process, Chats, Issues;
        if b.error {
          MalformedHolds(b.(error := false));
        } else if rx.Got? && !rx.p.body.Confirm? {
          ProcessHolds(b, rx.p);
        }
      }
    }
  }

  lemma ObeyWaits(c: Client, cmd: Commands.Command)
    requires Settled(c) && c.mode == UDP && !c.error && c.control.Handling?
    requires !Closing(c) ==> c.confirmed
    ensures Waits(c, Obey(c, cmd, NO_FAULTS), false)
  {
    hide ClientSend, Chats, Issues;
    match cmd
    case Say(text) =>
      ChatSend(c, Message(c.name, text), NO_FAULTS);
      SendsOk(c, Message(c.name, text));
      SendId(c, Message(c.name, text));
    case Authenticate(u, s, d) =>
      ChatSend(c.(name := d), Auth(u, d, s), NO_FAULTS);
      SendsOk(c.(name := d), Auth(u, d, s));
      SendId(c.(name := d), Auth(u, d, s));
    case JoinChannel(ch) =>
      ChatSend(c, Join(ch, c.name), NO_FAULTS);
      SendsOk(c, Join(ch, c.name));
      SendId(c, Join(ch, c.name));
    case Rename(d) =>
    case Help =>
    case Clear =>
    case Exit =>
      ChatSend(c.(state := StateEnd), Body.Bye, NO_FAULTS);
      SendsOk(c.(state := StateEnd), Body.Bye);
  }

  lemma SendId(c: Client, body: Body)
    requires c.mode == UDP && !c.error
    ensures ClientSend(c, body, NO_FAULTS).current == Payload(c.created % 0x1_0000, body)
  {
  }

  lemma InputWaits(c: Client, input: Input)
    requires Settled(c) && c.mode == UDP && c.control.Handling?
    requires !Closing(c) ==> c.confirmed
    ensures Waits(c, HandleInput(c, input, NO_FAULTS), false)
  {
    hide ClientSend, Obey, Understand, Chats, Issues;
    match input
    case Eof(tail) => ChatSend(c.(error := c.error || |tail| > BYTES_SIZE), Body.Bye, NO_FAULTS);
    case Line(text) =>
      if Understand(text).Some? && !c.error {
        ObeyWaits(c, Understand(text).value);
      }
  }

  lemma ByeWaits(c: Client)
    ensures Waits(c, HandleSignal(c, NO_FAULTS), false)
    ensures Waits(c, HandlePollError(c, NO_FAULTS).(control := Checking), false)
    ensures Waits(c, HandleFinish(c, NO_FAULTS).(control := Checking), false)
  {
    ChatSend(c, Body.Bye, NO_FAULTS);
    ChatSend(c.(state := StateEnd), Body.Bye, NO_FAULTS);
    SendAny();
    hide ClientSend, Chats, Issues;
  }

  lemma ExpireWaits(c: Client)
    requires Timer(c) && !c.confirmed
    ensures Waits(c, HandleTimeout(c.(control := Checking), NO_FAULTS), false)
  {
    var c' := c.(control := Checking, retries := c.retries + 1);
    var sent := TransmitShape(c', c.current, false);
    ChatAdds(c.log, sent);
    hide Transmit, Chats, Issues;
  }

  /** The event hands over a CONFIRM with the ID of the outstanding payload. */
  predicate Confirming(c: Client, e: Event) {
    Enabled(c, e) && e.Socket? && Matches(c, Receive(c.mode, e.packet))
  }

  /**
   Stop and wait: a step either keeps the outstanding payload, confirms it by its own ID, or closes;
   or it issues one chat payload, and then nothing was outstanding.
   */
  lemma StepWaits(c: Client, e: Event)
    requires Settled(c) && Timer(c) && Faultless(e) && c.mode == UDP
    ensures Waits(c, Step(c, e), Confirming(c, e))
  {
    hide ClientSend, HandleSocket, HandleInput, Receive, HandleSignal, HandlePollError,
      HandleFinish, HandleTimeout, Chats, Issues;
    if Enabled(c, e) {
      match e
      case Socket(packet, f) => SocketWaits(c.(control := Handling(false, c.control.stdin)), Receive(c.mode, packet));
      case Stdin(input, f) => InputWaits(c.(control := Handling(c.control.socket, false)), input);
      case Signal(f) => ByeWaits(c);
      case PollError(f) => ByeWaits(c);
      case Finish(f) => ByeWaits(c);
      case Expire(f) => ExpireWaits(c);
      case Ready(_, _) =>
      case Enter =>
    }
  }

  // ---------------------------------------------------------------- what arrives

  lemma ProcessLog(c: Client, p: Payload)
    requires !p.body.Confirm?
    ensures c.log + [Processed(p, c.state)] <= Process(c, p, NO_FAULTS).log
  {
    var d := c.(received := c.received + {p.id}, log := c.log + [Processed(p, c.state)]);
    var _ := SendShape(d, Body.Bye, NO_FAULTS);
    var _ := SendShape(d, Err(d.name, MalformedText()), NO_FAULTS);
    hide ClientSend, MalformedText, Ascii;
  }

  /**
   A payload that arrives over UDP while something is outstanding is dropped.  Otherwise its CONFIRM
   goes out first, a repeated one included; a repeated one does nothing else and a new one is acted on.
   */
  lemma ArrivalConfirmed(c: Client, e: Event, p: Payload)
    requires Settled(c) && c.mode == UDP && Enabled(c, e) && e.Socket? && e.f == NO_FAULTS
    requires Receive(UDP, e.packet) == Got(p) && !p.body.Confirm?
    ensures var d := Step(c, e);
            var rest := c.(control := Handling(false, c.control.stdin));
            var log := c.log + [Sent(Payload(p.id, Confirm), Udp.Encode(Payload(p.id, Confirm)))];
            if !c.confirmed then d == rest
            else if p.id in c.received then d == rest.(log := log)
            else log + [Processed(p, c.state)] <= d.log && d.received == c.received + {p.id}
  {
    hide Receive, Process, Udp.Encode, SendMalformed, Named;
    if c.confirmed && p.id !in c.received {
      var log := c.log + [Sent(Payload(p.id, Confirm), Udp.Encode(Payload(p.id, Confirm)))];
      var b := c.(control := Handling(false, c.control.stdin), log := log);
      ProcessLog(b, p);
      ProcessReceived(b, p);
    }
  }

  lemma ProcessReceived(c: Client, p: Payload)
    ensures Process(c, p, NO_FAULTS).received == c.received + {p.id}
  {
    hide ClientSend, MalformedText, Ascii;
    SendAny();
  }
}
