/** Single rounds over UDP that the examples of runs are put together from: a line typed, a payload confirmed. */
module Exchanges {
  import opened Window
  import opened Payloads
  import opened Protocol
  import opened StopAndWait
  import Commands
  import Udp
  import Typed

  const IDS: nat := 0x1_0000
  const LETTER: seq<byte> := ['a' as int]

  function Confirmed(c: Client): Client {
    c.(control := Checking, confirmed := true, retries := 0)
  }

  function ConfirmPacket(id: MessageId): Packet {
    Arrived(Udp.Encode(Payload(id, Confirm)), 0)
  }

  lemma DecodesWhole(p: Payload)
    requires WellFormed(p.body)
    ensures |Udp.Encode(p)| <= BYTES_SIZE && Receive(UDP, Arrived(Udp.Encode(p), 0)) == Got(p)
  {
    hide Udp.Encode, Udp.Decode;
    Udp.RoundTrip(p);
  }

  /** The client after `p`, made from the command, has gone out. */
  function Spoken(c: Client, name: seq<byte>, state: State, body: Body): Client {
    var p := Payload(c.created % IDS, body);
    c.(control := Handling(false, false), name := name, state := state, current := p, created := c.created + 1,
       confirmed := false, log := c.log + ([Issued(p)] + [Sent(p, Udp.Encode(p))]))
  }

  predicate Free(c: Client) {
    c.mode == UDP && c.control == Checking && c.confirmed && !c.error
  }

  /** A line taken for this command. */
  predicate Typable(text: seq<byte>, cmd: Commands.Command) {
    Understand(text) == Some(cmd)
  }

  /** The command's payload goes out. */
  function Said(c: Client, cmd: Commands.Command): Client {
    match cmd
    case Authenticate(u, s, d) => Spoken(c, d, StateAuth, Auth(u, d, s))
    case JoinChannel(ch) => Spoken(c, c.name, c.state, Join(ch, c.name))
    case Say(t) => Spoken(c, c.name, c.state, Message(c.name, t))
    case _ => c
  }

  lemma SendWhole(c: Client, body: Body)
    requires c.mode == UDP && !c.error
    ensures var p := Payload(c.created % IDS, body);
            ClientSend(c, body, NO_FAULTS)
            == c.(current := p, created := c.created + 1, confirmed := false,
                  log := c.log + ([Issued(p)] + [Sent(p, Udp.Encode(p))]))
  {
    var p := Payload(c.created % IDS, body);
    hide Udp.Encode;
    assert c.log + [Issued(p)] + [Sent(p, Udp.Encode(p))] == c.log + ([Issued(p)] + [Sent(p, Udp.Encode(p))]);
  }

  lemma SpeakStep(c: Client, text: seq<byte>, cmd: Commands.Command)
    requires Free(c) && Typable(text, cmd) && text != [] && Typed.Allowed(c.state, cmd)
    ensures var a := Step(Step(c, Enter), Ready(false, true));
            && a == c.(control := Handling(false, true))
            && Enabled(a, Stdin(Line(text), NO_FAULTS))
            && Step(a, Stdin(Line(text), NO_FAULTS)) == Said(c, cmd)
  {
    hide Understand, Udp.Encode;
    var a := c.(control := Handling(false, false));
    match cmd
    case Authenticate(u, s, d) => SendWhole(a.(name := d), Auth(u, d, s));
    case JoinChannel(ch) => SendWhole(a, Join(ch, c.name));
    case Say(t) => SendWhole(a, Message(c.name, t));
  }

  /** The CONFIRM of the outstanding payload, read in the next iteration. */
  lemma ConfirmRound(c: Client)
    requires c.mode == UDP && c.control == Checking && !c.confirmed && !c.error && !Closing(c)
    ensures var a := Step(Step(c, Enter), Ready(true, false));
            && a == c.(control := Handling(true, false))
            && Enabled(a, Socket(ConfirmPacket(c.current.id), NO_FAULTS))
            && Step(Step(a, Socket(ConfirmPacket(c.current.id), NO_FAULTS)), Finish(NO_FAULTS)) == Confirmed(c)
  {
    DecodesWhole(Payload(c.current.id, Confirm));
    hide Receive, Udp.Encode;
  }

  const LOGIN := Commands.Authenticate(LETTER, LETTER, LETTER)

  lemma NulFree(s: seq<byte>)
    requires NUL !in s
    ensures CString(s) == s
  {
    assert CString(s) <= s;
  }

  lemma LetterTypable()
    ensures Typable(LETTER, Commands.Say(LETTER)) && FieldOk(Content, LETTER) && FieldOk(DisplayName, LETTER)
  {
    hide Commands.Render, Understand, Commands.ValidCommand, Trim, CString;
    LetterLine();
    TrimUnique([], LETTER, [], SPACE);
    assert [] + LETTER + [] == LETTER;
    NulFree(LETTER);
    UnderstandExact(LETTER, Commands.Say(LETTER));
  }

  lemma LetterLine()
    ensures Commands.Render(Commands.Say(LETTER)) == LETTER && Commands.ValidCommand(Commands.Say(LETTER))
  {
  }

  lemma LoginLine()
    ensures var t := Commands.Render(LOGIN); |t| == 11 && NUL !in t && NoEdge(t, SPACE)
    ensures WellFormed(Auth(LETTER, LETTER, LETTER)) && Commands.ValidCommand(LOGIN)
  {
    var t := Commands.Render(LOGIN);
    assert t == Commands.W_AUTH + [' ' as int, 'a' as int, ' ' as int, 'a' as int, ' ' as int, 'a' as int];
  }

  lemma LoginTypable()
    ensures Typable(Commands.Render(LOGIN), LOGIN) && Commands.Render(LOGIN) != []
    ensures WellFormed(Auth(LETTER, LETTER, LETTER))
  {
    hide Commands.Render, Understand, Commands.ValidCommand, Trim, WellFormed, CString;
    var t := Commands.Render(LOGIN);
    LoginLine();
    TrimUnique([], t, [], SPACE);
    assert [] + t + [] == t;
    NulFree(t);
    UnderstandExact(t, LOGIN);
  }

  /** A MSG that stops after its header. */
  const CUT_MESSAGE: Packet := Arrived([MESSAGE, 0, 0], 0)

  lemma CutMessageIsBad()
    ensures Receive(UDP, CUT_MESSAGE) == Reception.Bad(MESSAGE, 0)
  {
    var d: seq<byte> := [MESSAGE, 0, 0];
    assert d[3..] == [];
  }
}
