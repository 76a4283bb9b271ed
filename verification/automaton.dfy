/**
 The state diagram of the protocol as an automaton over what the client does, and the proof that
 the STATE variable follows it.
 */
module Automaton {
  import opened Window
  import opened Payloads
  import opened Protocol
  import opened Phases
  import opened StopAndWait
  import Commands
  import Udp
  import Tcp

  /** The diagram: payloads issued and payloads acted on are its letters. */
  function Reads(s: State, e: Entry): State {
    match e
    case Sent(_, _) => s
    case Issued(p) =>
      if p.body.Auth? then StateAuth
      else if p.body.Err? then StateError
      else if p.body.Bye? then StateEnd
      else s
    case Processed(p, _) =>
      if p.body.Bye? then StateEnd
      else if p.body.Reply? && p.body.result && (s == StateAuth || s == StateOpen) then StateOpen
      else if p.body.Reply? && !p.body.result && s == StateAuth then StateNotAuth
      else s
  }

  function StateOf(log: seq<Entry>): State {
    if log == [] then StateStart else Reads(StateOf(log[..|log| - 1]), log[|log| - 1])
  }

  /**
   The client is where the automaton is.  It is in End instead when it was stopped before it issued
   anything, when a pending error put an ERR in the place of its BYE, or when it gave up.
   */
  predicate Follows(c: Client) {
    || c.state == StateOf(c.log)
    || (c.state == StateEnd && c.created == 0 && StateOf(c.log) == StateStart)
    || (c.state == StateEnd && c.current.body.Err? && StateOf(c.log) == StateError)
    || (c.state == StateEnd && c.control == Stopped && !c.confirmed)
  }

  lemma StateOfThen(log: seq<Entry>, e: Entry)
    ensures StateOf(log + [e]) == Reads(StateOf(log), e)
  {
    assert (log + [e])[..|log|] == log;
  }

  lemma TransmitReads(c: Client, p: Payload, fault: bool)
    ensures StateOf(Transmit(c, p, fault).log) == StateOf(c.log)
  {
    hide Udp.Datagram, Tcp.Encode, Tcp.Printable, StateOf;
    StateOfThen(c.log, Sent(p, Udp.Datagram(p, c.error)));
    StateOfThen(c.log, Sent(p, Tcp.Encode(p.body)));
  }

  lemma IssueReads(c: Client, body: Body)
    ensures StateOf(Issue(c, body).log) == Reads(StateOf(c.log), Issued(Payload(c.created % 0x1_0000, body)))
  {
    StateOfThen(c.log, Issued(Payload(c.created % 0x1_0000, body)));
  }

  /** A send takes the automaton along its payload's edge, or to Error when an ERR took its place. */
  lemma SendReads(c: Client, body: Body)
    requires !body.Confirm?
    ensures var d := ClientSend(c, body, NO_FAULTS);
            StateOf(d.log) == if !c.error && (c.mode == UDP || Tcp.Printable(body)) then
                                Reads(StateOf(c.log), Issued(Payload(c.created % 0x1_0000, body)))
                              else StateError
  {
    var a := Issue(c, body);
    var b := Transmit(a, a.current, false);
    var e := Issue(b.(error := false), Err(c.name, SendFailedText()));
    IssueReads(c, body);
    TransmitReads(a, a.current, false);
    IssueReads(b.(error := false), Err(c.name, SendFailedText()));
    TransmitReads(e, e.current, false);
    assert b.error <==> c.error || (c.mode == TCP && !Tcp.Printable(body)) by {
      hide Udp.Datagram, Tcp.Encode, Tcp.Printable, StateOf;
    }
    hide Transmit, StateOf, Tcp.Printable, SendFailedText, Ascii;
  }

  lemma ByeFollows(c: Client)
    requires Reliable(c)
    ensures Follows(ClientSend(c, Body.Bye, NO_FAULTS).(state := StateEnd))
  {
    hide ClientSend, StateOf;
    SendsOk(c, Body.Bye);
    SendReads(c, Body.Bye);
  }

  lemma MalformedFollows(c: Client)
    ensures Follows(SendMalformed(c, NO_FAULTS))
  {
    hide ClientSend, StateOf, MalformedText, Ascii, Tcp.Printable;
    SendReads(c, Err(c.name, MalformedText()));
  }

  lemma ProcessFollows(c: Client, p: Payload)
    requires Settled(c) && Follows(c) && c.control.Handling? && c.confirmed && !c.error && !p.body.Confirm?
    ensures Follows(Process(c, p, NO_FAULTS))
  {
    hide ClientSend, SendMalformed, StateOf, Named, Decided;
    var d := c.(received := c.received + {p.id}, log := c.log + [Processed(p, c.state)]);
    StateOfThen(c.log, Processed(p, c.state));
    match p.body
    case Auth(_, _, _) => MalformedFollows(d);
    case Join(_, _) => MalformedFollows(d);
    case Err(_, _) => ByeFollows(d);
    case Bye => ByeFollows(d);
    case Reply(_, _, _) =>
    case Message(_, _) =>
  }

  lemma FollowsFrame(c: Client, d: Client)
    requires Follows(c) && d.state == c.state && StateOf(d.log) == StateOf(c.log) && d.created == c.created
    requires d.current == c.current && (c.control == Stopped ==> d.control == Stopped && d.confirmed == c.confirmed)
    ensures Follows(d)
  {
  }

  /** Once the confirmation, if any, has been sent. */
  lemma ReceivedFollows(c: Client, b: Client, rx: Reception)
    requires Settled(c) && Follows(c) && c.control.Handling?
    requires b == c.(log := b.log, error := c.error || rx.Bad?) && StateOf(b.log) == StateOf(c.log)
    requires rx.Got? && !rx.p.body.Confirm? ==> c.confirmed
    ensures b.error ==> Follows(SendMalformed(b.(error := false), NO_FAULTS))
    ensures !b.error && rx.Got? ==> Follows(Accept(b, rx.p, NO_FAULTS))
    ensures !b.error ==> Follows(b)
  {
    hide SendMalformed, Process, StateOf, Named;
    FollowsFrame(c, b);
    assert Named(b) by {
      NamedFrame(c, b);
    }
    if b.error {
      MalformedFollows(b.(error := false));
    } else if rx.Got? && !rx.p.body.Confirm? {
      ProcessFollows(b, rx.p);
    }
  }

  lemma SocketFollows(c: Client, rx: Reception)
    requires Settled(c) && Follows(c) && c.control.Handling?
    ensures Follows(HandleSocket(c, rx, NO_FAULTS))
  {
    FollowsFrame(c, c.(error := false));
    if !rx.Ignored? {
      var code := if rx.Got? then TypeCode(rx.p.body) else rx.code;
      var id := if rx.Got? then rx.p.id else rx.id;
      var a := c.(error := c.error || rx.Bad?);
      FollowsFrame(c, a);
      if code == CONFIRM || a.confirmed {
        var b := if code != CONFIRM then Transmit(a, Payload(id, Confirm), false) else a;
        assert b == a.(log := b.log);
        TransmitReads(a, Payload(id, Confirm), false);
        hide Transmit, SendMalformed, Accept, StateOf, Follows, Settled;
        ReceivedFollows(c, b, rx);
      }
    }
  }

  lemma ChatFollows(c: Client, body: Body)
    requires Settled(c) && Follows(c) && !c.error && c.state == StateOpen
    requires (body.Join? || body.Message?) && WellFormed(body)
    ensures Follows(ClientSend(c, body, NO_FAULTS))
  {
    hide ClientSend, StateOf;
    SendsOk(c, body);
    SendReads(c, body);
  }

  lemma AuthFollows(c: Client, u: seq<byte>, s: seq<byte>, d: seq<byte>)
    requires Settled(c) && !c.error
    requires FieldOk(Username, u) && FieldOk(Secret, s) && FieldOk(DisplayName, d)
    ensures Follows(ClientSend(c.(name := d), Auth(u, d, s), NO_FAULTS).(state := StateAuth))
  {
    hide ClientSend, StateOf;
    SendReads(c.(name := d), Auth(u, d, s));
  }

  lemma ObeyFollows(c: Client, cmd: Commands.Command)
    requires Settled(c) && Follows(c) && c.control.Handling? && !c.error && Commands.ValidCommand(cmd)
    ensures Follows(Obey(c, cmd, NO_FAULTS))
  {
    hide ClientSend, StateOf;
    match cmd
    case Say(text) =>
      if c.state == StateOpen {
        ChatFollows(c, Message(c.name, text));
      }
    case Authenticate(u, s, d) => AuthFollows(c, u, s, d);
    case JoinChannel(ch) =>
      if c.state == StateOpen {
        ChatFollows(c, Join(ch, c.name));
      }
    case Rename(_) =>
    case Help =>
    case Clear =>
    case Exit => LeaveFollows(c);
  }

  /** The state is set to End before the send. */
  lemma LeaveFollows(c: Client)
    requires Pending(c)
    ensures Follows(ClientSend(c.(state := StateEnd), Body.Bye, NO_FAULTS))
  {
    hide ClientSend, StateOf;
    SendsOk(c.(state := StateEnd), Body.Bye);
    SendReads(c.(state := StateEnd), Body.Bye);
  }

  lemma InputFollows(c: Client, input: Input)
    requires Settled(c) && Follows(c) && c.control.Handling?
    ensures Follows(HandleInput(c, input, NO_FAULTS))
  {
    hide ClientSend, Obey, Understand, Commands.ValidCommand, StateOf;
    match input
    case Eof(tail) => ByeFollows(c.(error := c.error || |tail| > BYTES_SIZE));
    case Line(text) =>
      if Understand(text).Some? && !c.error {
        UnderstandExact(text, Understand(text).value);
        ObeyFollows(c, Understand(text).value);
      }
  }

  lemma ExpireFollows(c: Client)
    requires Settled(c) && Timer(c) && Follows(c) && c.control.Waiting? && c.control.timed
    ensures Follows(HandleTimeout(c.(control := Checking), NO_FAULTS))
  {
    var d := c.(control := Checking, retries := c.retries + 1);
    TransmitReads(d, c.current, false);
  }

  lemma StepFollows(c: Client, e: Event)
    requires Settled(c) && Timer(c) && Follows(c) && Faultless(e)
    ensures Follows(Step(c, e))
  {
    hide ClientSend, HandleSocket, HandleInput, HandleTimeout, Receive, StateOf;
    if Enabled(c, e) {
      match e
      case Socket(packet, f) => SocketFollows(c.(control := Handling(false, c.control.stdin)), Receive(c.mode, packet));
      case Stdin(input, f) => InputFollows(c.(control := Handling(c.control.socket, false)), input);
      case Signal(f) => ByeFollows(c);
      case PollError(f) =>
        LeaveFollows(c);
        SendsOk(c.(state := StateEnd), Body.Bye);
      case Finish(f) =>
        ByeFollows(c);
        SendsOk(c, Body.Bye);
      case Expire(f) => ExpireFollows(c);
      case Ready(_, _) =>
      case Enter =>
    }
  }

  /** Over every run without local send failures STATE is the state of the diagram, but for the three ways into End. */
  lemma {:induction false} StateFollowsTrace(mode: Mode, limit: nat, es: seq<Event>)
    requires AllFaultless(es)
    ensures Follows(Run(Init(mode, limit), es))
  {
    if es != [] {
      var init := es[..|es| - 1];
      StateFollowsTrace(mode, limit, init);
      RunSettled(mode, limit, init);
      KeptRun(mode, limit, init);
      StepFollows(Run(Init(mode, limit), init), es[|es| - 1]);
    }
  }
}
