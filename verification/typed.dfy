/** From the line the user types to what the peer decodes, over both transports. */
module Typed {
  import opened Window
  import opened Payloads
  import opened Protocol
  import opened Phases
  import opened StopAndWait
  import Commands
  import Udp
  import Tcp

  /** The chat payload a command asks for, under the display name in force. */
  function BodyFor(cmd: Commands.Command, name: seq<byte>): Option<Body> {
    match cmd
    case Say(text) => Some(Message(name, text))
    case Authenticate(u, s, d) => Some(Auth(u, d, s))
    case JoinChannel(ch) => Some(Join(ch, name))
    case _ => None
  }

  /** The states in which the command is obeyed with a send. */
  predicate Allowed(s: State, cmd: Commands.Command) {
    match cmd
    case Say(_) => s == StateOpen
    case JoinChannel(_) => s == StateOpen
    case Authenticate(_, _, _) => s == StateStart || s == StateNotAuth
    case _ => false
  }

  /** The bytes of a payload decode, at the other end of the transport, to its type and all its text. */
  predicate Understood(mode: Mode, bytes: seq<byte>, p: Payload) {
    if mode == UDP then Udp.Decode(bytes) == Udp.Good(p) else Tcp.Decode(bytes) == Some(p.body)
  }

  lemma UnderstoodEncoded(p: Payload)
    requires WellFormed(p.body) && IsChat(p.body)
    ensures Understood(UDP, Udp.Encode(p), p) && Understood(TCP, Tcp.Encode(p.body), p) && Tcp.Printable(p.body)
  {
    hide Udp.Decode, Udp.Encode, Tcp.Decode, Tcp.Encode;
    Udp.RoundTrip(p);
    Tcp.RoundTrip(p.body);
  }

  /** Without a pending error and a local failure a well-formed payload goes out whole. */
  lemma SendsWhole(c: Client, body: Body)
    requires !c.error && WellFormed(body) && IsChat(body)
    ensures var p := Payload(c.created % 0x1_0000, body);
            var bytes := if c.mode == UDP then Udp.Encode(p) else Tcp.Encode(body);
            var d := ClientSend(c, body, NO_FAULTS);
            d.log == c.log + [Issued(p), Sent(p, bytes)] && d.name == c.name && Understood(c.mode, bytes, p)
  {
    hide Udp.Encode, Tcp.Encode, Tcp.Printable, Udp.Decode, Tcp.Decode, WellFormed, Transmit;
    var p := Payload(c.created % 0x1_0000, body);
    UnderstoodEncoded(p);
    NotConfirm(body);
    var a := Issue(c, body);
    TransmitsWhole(a, p);
    var bytes := if c.mode == UDP then Udp.Encode(p) else Tcp.Encode(body);
    assert (c.log + [Issued(p)]) + [Sent(p, bytes)] == c.log + [Issued(p), Sent(p, bytes)];
  }

  lemma TransmitsWhole(c: Client, p: Payload)
    requires !c.error && !p.body.Confirm? && Tcp.Printable(p.body)
    ensures Transmit(c, p, false)
            == c.(log := c.log + [Sent(p, if c.mode == UDP then Udp.Encode(p) else Tcp.Encode(p.body))])
  {
    hide Udp.Encode, Tcp.Encode, Tcp.Printable;
  }

  lemma NotConfirm(b: Body)
    requires IsChat(b)
    ensures !b.Confirm?
  {
  }

  /** What obeying a command does to the trace. */
  lemma ObeyTyped(c: Client, cmd: Commands.Command)
    requires Named(c) && !c.error && Commands.ValidCommand(cmd)
    ensures var d := Obey(c, cmd, NO_FAULTS);
            Allowed(c.state, cmd) ==>
              var p := Payload(c.created % 0x1_0000, BodyFor(cmd, d.name).value);
              var bytes := if c.mode == UDP then Udp.Encode(p) else Tcp.Encode(p.body);
              && d.log == c.log + [Issued(p), Sent(p, bytes)]
              && WellFormed(p.body) && IsChat(p.body) && Understood(c.mode, bytes, p)
    ensures !Allowed(c.state, cmd) ==> ChatLog(Obey(c, cmd, NO_FAULTS)) == ChatLog(c)
  {
    hide ClientSend, Udp.Encode, Tcp.Encode, Udp.Decode, Tcp.Decode, Chats, Issues;
    match cmd
    case Say(text) =>
      if c.state == StateOpen {
        SendsWhole(c, Message(c.name, text));
      }
    case Authenticate(u, s, d) =>
      if c.state == StateStart || c.state == StateNotAuth {
        SendsWhole(c.(name := d), Auth(u, d, s));
      }
    case JoinChannel(ch) =>
      if c.state == StateOpen {
        SendsWhole(c, Join(ch, c.name));
      }
    case Rename(_) =>
    case Help =>
    case Clear =>
    case Exit => ChatSend(c.(state := StateEnd), Body.Bye, NO_FAULTS);
  }

  /**
   In every reachable state, any typed line makes the client issue a chat payload exactly when it fits
   the buffer and, up to a NUL and trimmed, is the canonical line of a valid command that the state
   allows, and no error is pending.  Then that one payload carries the typed fields and the display
   name in force, and the bytes handed to the socket decode to it.
   */
  lemma TypedIsDecoded(mode: Mode, limit: nat, es: seq<Event>, text: seq<byte>)
    requires Enabled(Run(Init(mode, limit), es), Stdin(Line(text), NO_FAULTS))
    ensures var c := Run(Init(mode, limit), es);
            var d := Step(c, Stdin(Line(text), NO_FAULTS));
            if !c.error && (exists cmd :: Asks(text, cmd) && Allowed(c.state, cmd)) then
              forall cmd :: Asks(text, cmd) && Allowed(c.state, cmd) ==>
                var p := Payload(c.created % 0x1_0000, BodyFor(cmd, d.name).value);
                var bytes := if mode == UDP then Udp.Encode(p) else Tcp.Encode(p.body);
                && d.log == c.log + [Issued(p), Sent(p, bytes)]
                && WellFormed(p.body) && Understood(mode, bytes, p)
            else ChatLog(d) == ChatLog(c)
  {
    hide Obey, Understand, Udp.Encode, Tcp.Encode, Udp.Decode, Tcp.Decode, Chats, Issues, Run, WellFormed, Allowed;
    hide Commands.ValidCommand, Commands.Render, Trim;
    var c := Run(Init(mode, limit), es);
    KeptRun(mode, limit, es);
    var c' := c.(control := Handling(c.control.socket, false));
    forall cmd
      ensures Asks(text, cmd) <==> Understand(text) == Some(cmd)
    {
      UnderstandExact(text, cmd);
    }
    if Understand(text).Some? && !c.error {
      ObeyTyped(c', Understand(text).value);
      NotBlank(text);
    }
  }

  /** The line fits, and its C string, trimmed, is the canonical line of the valid command `cmd`. */
  predicate Asks(text: seq<byte>, cmd: Commands.Command) {
    |text| < BYTES_SIZE && Commands.ValidCommand(cmd) && Trim(CString(text), SPACE) == Commands.Render(cmd)
  }

  lemma NotBlank(text: seq<byte>)
    requires Understand(text).Some?
    ensures text != []
  {
  }
}
