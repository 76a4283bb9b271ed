/**
 What each event does to the whole client, local send failures included: what is polled and handled,
 what a send leaves behind, what a typed line and a packet lead to, and where the display name comes from.
 */
module Effects {
  import opened Window
  import opened Payloads
  import opened Protocol
  import opened Phases
  import opened StopAndWait
  import Coherence
  import Commands
  import Exchanges
  import Interrupts
  import Overlong
  import Typed
  import Wire
  import Udp
  import Tcp

  // ---------------------------------------------------------------- polling

  /**
   At the loop test: the client leaves exactly in End with nothing outstanding.  Otherwise it polls the
   socket, stdin exactly when nothing is outstanding and it is not in Auth, and for a limited time
   exactly when something is outstanding.
   */
  lemma PollIs(c: Client, f: Faults, socket: bool, stdin: bool)
    requires c.control == Checking
    ensures var d := Step(c, Enter);
            && d == c.(control := d.control)
            && (d.control == Stopped <==> c.state == StateEnd && c.confirmed)
            && (Enabled(d, Expire(f)) <==> !c.confirmed)
            && (Enabled(d, PollError(f)) <==> !(c.state == StateEnd && c.confirmed))
            && (Enabled(d, Ready(socket, stdin)) <==>
                  && !(c.state == StateEnd && c.confirmed) && (socket || stdin)
                  && (stdin ==> c.confirmed && c.state != StateAuth))
  {
  }

  /** What is ready is handled once, in either order, and then the iteration ends. */
  lemma IterationIs(c: Client, socket: bool, stdin: bool, e: Event)
    requires Enabled(c, Ready(socket, stdin))
    ensures var d := Step(c, Ready(socket, stdin));
            && d == c.(control := d.control) && d.control.Handling?
            && (e.Finish? ==> (Enabled(d, e) <==> false))
            && (e.Stdin? ==> (Enabled(d, e) <==> stdin))
            && (e.Socket? && e.packet.Failed? ==> (Enabled(d, e) <==> socket))
            && (e.Socket? && e.packet.Arrived? ==> (Enabled(d, e) <==> socket && |e.packet.bytes| <= 1501))
            && (e.Socket? && Enabled(d, e) ==> HandledControl(d, e) == Handling(false, stdin))
            && (e.Stdin? && Enabled(d, e) ==> HandledControl(d, e) == Handling(socket, false))
    ensures Enabled(c.(control := Handling(false, false)), e) <==> e.Finish? || e.Signal?
  {
    hide HandleSocket, HandleInput, Receive;
    var d := Step(c, Ready(socket, stdin));
    if e.Socket? && Enabled(d, e) {
      SocketMode(d.(control := Handling(false, stdin)), Receive(c.mode, e.packet), e.f);
    }
    if e.Stdin? && Enabled(d, e) {
      InputMode(d.(control := Handling(socket, false)), e.input, e.f);
    }
  }

  function HandledControl(c: Client, e: Event): Control {
    Step(c, e).control
  }

  // ---------------------------------------------------------------- sending

  function Bytes(c: Client, p: Payload): seq<byte> {
    if c.mode == UDP then Udp.Encode(p) else Tcp.Encode(p.body)
  }

  /** The payload goes out whole. */
  function Said(c: Client, body: Body): Client {
    var p := Payload(c.created % 0x1_0000, body);
    c.(current := p, created := c.created + 1, confirmed := c.mode == TCP,
       log := c.log + [Issued(p), Sent(p, Bytes(c, p))])
  }

  /**
   It does not, and an ERR with the display name takes its place, which goes out or not.  Over UDP the
   first three bytes of the payload may have gone out before it.
   */
  function Replaced(c: Client, body: Body, cut: bool, out: bool): Client {
    var p := Payload(c.created % 0x1_0000, body);
    var q := Payload((c.created + 1) % 0x1_0000, Err(displayName := c.name, content := SendFailedText()));
    c.(current := q, created := c.created + 2, confirmed := if out then c.mode == TCP else c.confirmed,
       error := !out, state := if out then StateError else StateEnd,
       log := c.log + ([Issued(p)] + (if cut then [Sent(p, Udp.Encode(p)[..3])] else [])
                       + [Issued(q)] + (if out then [Sent(q, Bytes(c, q))] else [])))
  }

  function Says(c: Client, body: Body, f: Faults): Client {
    if !c.error && !f.first && (c.mode == UDP || Tcp.Printable(body)) then Said(c, body)
    else Replaced(c, body, c.mode == UDP && !f.first, !f.second && (c.mode == UDP || c.name != []))
  }

  /** What goes out of one payload: over UDP a pending error leaves three bytes, over TCP nothing. */
  function Out(c: Client, p: Payload, fault: bool): seq<Entry> {
    if fault then []
    else if c.mode == UDP then [Sent(p, if c.error then Udp.Encode(p)[..3] else Udp.Encode(p))]
    else if c.error || !Tcp.Printable(p.body) then []
    else [Sent(p, Tcp.Encode(p.body))]
  }

  lemma OneOut(c: Client, body: Body, fault: bool)
    requires !body.Confirm?
    ensures var a := Issue(c, body);
            Transmit(a, a.current, fault)
            == c.(current := Payload(c.created % 0x1_0000, body), created := c.created + 1,
                  log := c.log + ([Issued(a.current)] + Out(c, a.current, fault)),
                  error := c.error || fault || (c.mode == TCP && !Tcp.Printable(body)))
  {
    hide Udp.Text, Tcp.Encode, Tcp.Printable;
    var p := Payload(c.created % 0x1_0000, body);
    assert Udp.Encode(p)[..3] == Udp.Header(p);
    assert c.log + [Issued(p)] + Out(c, p, fault) == c.log + ([Issued(p)] + Out(c, p, fault));
    assert c.log + ([Issued(p)] + []) == c.log + [Issued(p)];
  }

  lemma WholeIs(c: Client, body: Body, f: Faults)
    requires !body.Confirm? && !c.error && !f.first && (c.mode == UDP || Tcp.Printable(body))
    ensures ClientSend(c, body, f) == Said(c, body)
  {
    hide Udp.Encode, Tcp.Encode, Tcp.Printable, Transmit, Issue;
    var p := Payload(c.created % 0x1_0000, body);
    OneOut(c, body, f.first);
    IssueCurrent(c, body);
    assert [Issued(p)] + Out(c, p, f.first) == [Issued(p), Sent(p, Bytes(c, p))];
  }

  lemma ReplacedIs(c: Client, body: Body, f: Faults)
    requires !body.Confirm? && !(!c.error && !f.first && (c.mode == UDP || Tcp.Printable(body)))
    ensures ClientSend(c, body, f) == Says(c, body, f)
  {
    hide Udp.Encode, Tcp.Encode, Tcp.Printable, SendFailedText, Transmit, Issue, Out;
    var p := Payload(c.created % 0x1_0000, body);
    OneOut(c, body, f.first);
    IssueCurrent(c, body);
    var a := Issue(c, body);
    var b := Transmit(a, a.current, f.first).(error := false);
    SecondIs(b, f.second);
    var q := Payload(b.created % 0x1_0000, Err(c.name, SendFailedText()));
    var x, y := Out(c, p, f.first), if !f.second && (c.mode == UDP || c.name != []) then [Sent(q, Bytes(c, q))] else [];
    FirstOut(c, p, f.first);
    assert c.log + ([Issued(p)] + x) + ([Issued(q)] + y) == c.log + ([Issued(p)] + x + [Issued(q)] + y);
  }

  /** What of the payload itself went out before it was replaced. */
  lemma FirstOut(c: Client, p: Payload, fault: bool)
    requires c.error || fault || (c.mode == TCP && !Tcp.Printable(p.body))
    ensures Out(c, p, fault) == if c.mode == UDP && !fault then [Sent(p, Udp.Encode(p)[..3])] else []
  {
    hide Udp.Encode, Tcp.Encode, Tcp.Printable;
  }

  /** The ERR with the reason. */
  lemma SecondIs(c: Client, fault: bool)
    requires !c.error
    ensures var q := Payload(c.created % 0x1_0000, Err(c.name, SendFailedText()));
            var out := !fault && (c.mode == UDP || c.name != []);
            var e := Issue(c, q.body);
            Transmit(e, e.current, fault)
            == c.(current := q, created := c.created + 1, error := !out,
                  log := c.log + ([Issued(q)] + if out then [Sent(q, Bytes(c, q))] else []))
  {
    hide Udp.Encode, Tcp.Encode, Tcp.Printable, SendFailedText, Transmit, Issue;
    NamePrints(c.name);
    OneOut(c, Err(c.name, SendFailedText()), fault);
    IssueCurrent(c, Err(c.name, SendFailedText()));
  }

  /** client_send, whatever fails. */
  lemma SendIs(c: Client, body: Body, f: Faults)
    requires !body.Confirm?
    ensures ClientSend(c, body, f) == Says(c, body, f)
  {
    hide ClientSend, Said, Replaced, Tcp.Printable;
    if !c.error && !f.first && (c.mode == UDP || Tcp.Printable(body)) {
      WholeIs(c, body, f);
    } else {
      ReplacedIs(c, body, f);
    }
  }

  lemma IssueCurrent(c: Client, body: Body)
    ensures Issue(c, body).current == Payload(c.created % 0x1_0000, body)
  {
  }

  lemma NamePrints(name: seq<byte>)
    ensures Tcp.Printable(Err(name, SendFailedText())) <==> name != []
  {
    FailedTextNotEmpty();
  }

  lemma FailedTextNotEmpty()
    ensures SendFailedText() != []
  {
  }

  // ---------------------------------------------------------------- leaving

  /** A signal, a failed poll and the end of input: a BYE, except in Start on a signal, and then End. */
  lemma LeavingIs(c: Client, f: Faults, tail: seq<byte>)
    ensures Step(c, Signal(f)) ==
              if c.control == Stopped then c
              else if c.state == StateStart then c.(state := StateEnd)
              else Says(c, Body.Bye, f).(state := StateEnd)
    ensures Enabled(c, PollError(f)) ==>
              Step(c, PollError(f)) == Says(c.(state := StateEnd), Body.Bye, f).(control := Checking)
    ensures Enabled(c, Stdin(Eof(tail), f)) ==>
              Step(c, Stdin(Eof(tail), f)) ==
              Says(c.(control := Handling(c.control.socket, false), error := c.error || |tail| > 1501),
                   Body.Bye, f).(state := StateEnd)
    ensures Enabled(c, Finish(f)) ==>
              Step(c, Finish(f)) ==
              (if c.state == StateError && c.confirmed then Says(c, Body.Bye, f).(state := StateEnd) else c)
                .(control := Checking)
  {
    hide ClientSend, Says;
    SendIs(c, Body.Bye, f);
    SendIs(c.(state := StateEnd), Body.Bye, f);
    if Enabled(c, Stdin(Eof(tail), f)) {
      SendIs(c.(control := Handling(c.control.socket, false), error := c.error || |tail| > 1501), Body.Bye, f);
    }
  }

  // ---------------------------------------------------------------- typed lines

  /** What obeying a command does. */
  function Obeyed(c: Client, cmd: Commands.Command, f: Faults): Client {
    match cmd
    case Say(text) =>
      if c.state == StateOpen then Says(c, Message(displayName := c.name, content := text), f) else c
    case JoinChannel(channel) =>
      if c.state == StateOpen then Says(c, Join(channelId := channel, displayName := c.name), f) else c
    case Authenticate(user, secret, name) =>
      if c.state == StateStart || c.state == StateNotAuth then
        Says(c.(name := name), Auth(username := user, displayName := name, secret := secret), f).(state := StateAuth)
      else c
    case Rename(name) => c.(name := name)
    case Help => c
    case Clear => c
    case Exit => Says(c.(state := StateEnd), Body.Bye, f)
  }

  lemma ObeyIs(c: Client, cmd: Commands.Command, f: Faults)
    ensures Obey(c, cmd, f) == Obeyed(c, cmd, f)
  {
    hide ClientSend, Says;
    match cmd
    case Say(text) => SendIs(c, Message(c.name, text), f);
    case JoinChannel(channel) => SendIs(c, Join(channel, c.name), f);
    case Authenticate(user, secret, name) => SendIs(c.(name := name), Auth(user, name, secret), f);
    case Exit => SendIs(c.(state := StateEnd), Body.Bye, f);
    case _ =>
  }

  /**
   A typed line.  An empty one does nothing; one that asks for nothing, or that comes while an error is
   pending, clears the error and does nothing else; any other does what the command it asks for does.
   */
  lemma LineIs(c: Client, text: seq<byte>, f: Faults, cmd: Commands.Command)
    requires Enabled(c, Stdin(Line(text), f))
    ensures var a := c.(control := Handling(c.control.socket, false));
            var d := Step(c, Stdin(Line(text), f));
            && (text == [] ==> d == a)
            && (text != [] && (c.error || forall x :: !Typed.Asks(text, x)) ==> d == a.(error := false))
            && (!c.error && Typed.Asks(text, cmd) ==> d == Obeyed(a, cmd, f))
  {
    hide Obey, Obeyed, Understand, Typed.Asks;
    AsksIs(text, cmd);
    NothingAsked(text);
    ObeyIs(c.(control := Handling(c.control.socket, false)), cmd, f);
  }

  lemma AsksIs(text: seq<byte>, cmd: Commands.Command)
    ensures Typed.Asks(text, cmd) <==> Understand(text) == Some(cmd)
    ensures Typed.Asks(text, cmd) ==> text != []
  {
    hide Understand, Commands.ValidCommand, Commands.Render, Trim, CString;
    UnderstandExact(text, cmd);
    if Understand(text) == Some(cmd) {
      Typed.NotBlank(text);
    }
  }

  lemma NothingAsked(text: seq<byte>)
    ensures (forall x :: !Typed.Asks(text, x)) ==> Understand(text) == None
  {
    hide Understand, Typed.Asks;
    if Understand(text).Some? {
      AsksIs(text, Understand(text).value);
    }
  }

  // ---------------------------------------------------------------- the display name over runs

  /** The name an event gives: by a /rename, or by an /auth that is obeyed. */
  function Given(c: Client, e: Event): Option<seq<byte>> {
    if !Enabled(c, e) || !e.Stdin? || !e.input.Line? || c.error then None
    else
      match Understand(e.input.text)
      case Some(Rename(name)) => Some(name)
      case Some(Authenticate(_, _, name)) =>
        if c.state == StateStart || c.state == StateNotAuth then Some(name) else None
      case _ => None
  }

  /** In terms of the line: it asks for a /rename, or for an /auth in Start or NotAuth, and no error is pending. */
  lemma GivenIs(c: Client, text: seq<byte>, f: Faults, name: seq<byte>)
    requires Enabled(c, Stdin(Line(text), f))
    ensures Given(c, Stdin(Line(text), f)) == Some(name) <==>
            && !c.error
            && (|| Typed.Asks(text, Commands.Rename(name))
                || ((c.state == StateStart || c.state == StateNotAuth)
                    && exists user, secret :: Typed.Asks(text, Commands.Authenticate(user, secret, name))))
  {
    hide Understand, Typed.Asks;
    AsksIs(text, Commands.Rename(name));
    forall user, secret
      ensures Typed.Asks(text, Commands.Authenticate(user, secret, name))
              <==> Understand(text) == Some(Commands.Authenticate(user, secret, name))
    {
      AsksIs(text, Commands.Authenticate(user, secret, name));
    }
    if Given(c, Stdin(Line(text), f)) == Some(name) && Understand(text).value.Authenticate? {
      var cmd := Understand(text).value;
      assert Typed.Asks(text, Commands.Authenticate(cmd.username, cmd.secret, name));
    }
  }

  /** Nothing else changes it. */
  lemma StepName(c: Client, e: Event)
    ensures Step(c, e).name == if Given(c, e).Some? then Given(c, e).value else c.name
  {
    hide ClientSend, HandleSocket, Understand, Receive;
    SendAny();
    if Enabled(c, e) {
      match e
      case Socket(packet, f) => SocketName(c.(control := Handling(false, c.control.stdin)), Receive(c.mode, packet), f);
      case Stdin(Line(text), f) => EmptyLine();
      case _ =>
    }
  }

  lemma EmptyLine()
    ensures Understand([]) == None
  {
  }

  lemma SocketName(c: Client, rx: Reception, f: Faults)
    ensures HandleSocket(c, rx, f).name == c.name
  {
    hide ClientSend, Udp.Datagram, Tcp.Encode, Tcp.Printable, MalformedText, Process;
    SendAny();
    if rx.Got? {
      forall d: Client
        ensures Process(d, rx.p, f).name == d.name
      {
        ProcessName(d, rx.p, f);
      }
    }
  }

  lemma ProcessName(c: Client, p: Payload, f: Faults)
    ensures Process(c, p, f).name == c.name
  {
    hide ClientSend, MalformedText;
    SendAny();
  }

  /** The name event `j` of a run gives. */
  function GivenAt(c: Client, es: seq<Event>, j: nat): Option<seq<byte>>
    requires j < |es|
  {
    Given(Run(c, es[..j]), es[j])
  }

  lemma GivenEarlier(c: Client, es: seq<Event>, n: nat)
    requires n <= |es|
    ensures forall j :: 0 <= j < n ==> GivenAt(c, es[..n], j) == GivenAt(c, es, j)
  {
    hide Given, Run;
    forall j | 0 <= j < n
      ensures GivenAt(c, es[..n], j) == GivenAt(c, es, j)
    {
      assert es[..n][..j] == es[..j];
    }
  }

  /**
   In every run the display name is the one given last: by event `i`, after which none gives another, or
   none was given and it is empty.
   */
  lemma {:induction false} NameIsLastGiven(mode: Mode, limit: nat, es: seq<Event>) returns (i: nat)
    ensures var c := Init(mode, limit);
            && i <= |es| && (forall j :: i < j < |es| ==> GivenAt(c, es, j) == None)
            && if i < |es| then GivenAt(c, es, i) == Some(Run(c, es).name)
               else Run(c, es).name == [] && forall j :: 0 <= j < |es| ==> GivenAt(c, es, j) == None
  {
    hide Given, Run, GivenAt;
    var c := Init(mode, limit);
    if es == [] {
      RunNone(c);
      i := 0;
    } else {
      var n := |es| - 1;
      i := NameIsLastGiven(mode, limit, es[..n]);
      GivenEarlier(c, es, n);
      LastName(c, es);
      if GivenAt(c, es, n).Some? {
        i := n;
      } else if i == n {
        i := |es|;
      }
    }
  }

  lemma LastName(c: Client, es: seq<Event>)
    requires es != []
    ensures var n := |es| - 1;
            Run(c, es).name == if GivenAt(c, es, n).Some? then GivenAt(c, es, n).value else Run(c, es[..n]).name
  {
    hide Given, Step;
    StepName(Run(c, es[..|es| - 1]), es[|es| - 1]);
  }

  // ---------------------------------------------------------------- packets

  /** A packet is answered with an ERR. */
  function Complains(c: Client, f: Faults): Client {
    Says(c.(error := false), Err(displayName := c.name, content := MalformedText()), f).(state := StateError)
  }

  /** The CONFIRM for this ID: three bytes, with or without an error pending. */
  function Confirms(c: Client, id: MessageId, fault: bool): Client {
    if fault then c.(error := true) else c.(log := c.log + [Sent(Payload(id, Confirm), [0, id / 256, id % 256])])
  }

  lemma ComplainsIs(c: Client, f: Faults)
    ensures SendMalformed(c.(error := false), f) == Complains(c, f)
  {
    hide ClientSend, Says, MalformedText;
    SendIs(c.(error := false), Err(c.name, MalformedText()), f);
  }

  lemma ConfirmsIs(c: Client, id: MessageId, fault: bool)
    ensures c.mode == UDP ==> Transmit(c, Payload(id, Confirm), fault) == Confirms(c, id, fault)
    ensures c.mode == TCP ==> Transmit(c, Payload(id, Confirm), fault) == c
  {
    var p := Payload(id, Confirm);
    assert Udp.Header(p) + [] == Udp.Header(p) == [0, id / 256, id % 256];
    assert Udp.Datagram(p, c.error) == [0, id / 256, id % 256];
  }

  /** What a packet is taken for; over TCP the payload gets the ID that happened to be in memory. */
  lemma ReceiveIs(bytes: seq<byte>, junk: MessageId, p: Payload)
    ensures Receive(UDP, Arrived(bytes, junk)) == Got(p) <==> Udp.Decode(bytes) == Udp.Good(p)
    ensures Receive(TCP, Arrived(bytes, junk)) == Got(p) <==> Tcp.Decode(bytes) == Some(p.body) && p.id == junk
    ensures Receive(UDP, Arrived(bytes, junk)).Bad? <==> Udp.Decode(bytes).Bad?
    ensures Receive(TCP, Arrived(bytes, junk)).Bad? <==> Tcp.Decode(bytes) == None
  {
    hide Udp.Decode, Tcp.Decode;
  }

  /**
   What is not a payload.  A datagram from elsewhere clears the error and does nothing else.  A failed
   receive is answered with an ERR in every state, even while something is outstanding.
   */
  lemma NoPayloadIs(c: Client, f: Faults)
    requires c.control.Handling? && c.control.socket
    ensures var a := c.(control := Handling(false, c.control.stdin));
            && (c.mode == UDP ==> Step(c, Socket(Elsewhere, f)) == a.(error := false))
            && Step(c, Socket(Failed, f)) == Complains(a, f)
  {
    hide SendMalformed, Complains;
    ComplainsIs(c.(control := Handling(false, c.control.stdin), error := true), f);
    ComplainsFrame(c.(control := Handling(false, c.control.stdin)), f);
  }

  lemma ComplainsFrame(c: Client, f: Faults)
    ensures Complains(c.(error := true), f) == Complains(c, f)
  {
  }

  /**
   A datagram that cannot be decoded.  With type CONFIRM, or too short for a header, it is answered at
   once.  Otherwise it only leaves the error while something is outstanding; else it is confirmed by the
   ID in it and then answered.
   */
  lemma RefusedIs(c: Client, bytes: seq<byte>, junk: MessageId, f: Faults)
    requires c.mode == UDP && Enabled(c, Socket(Arrived(bytes, junk), f)) && Udp.Decode(bytes).Bad?
    ensures var a := c.(control := Handling(false, c.control.stdin), error := true);
            Step(c, Socket(Arrived(bytes, junk), f)) ==
            if |bytes| < 3 || bytes[0] == 0 then Complains(a, f)
            else if !c.confirmed then a
            else Complains(Confirms(a, 256 * (bytes[1] as int) + bytes[2], f.confirm), f)
  {
    hide Udp.Decode, SendMalformed, Complains, Confirms, Transmit;
    Overlong.RefusedHeader(bytes);
    var a := c.(control := Handling(false, c.control.stdin), error := true);
    if |bytes| < 3 || bytes[0] == 0 {
      ComplainsIs(a, f);
    } else {
      var id := 256 * (bytes[1] as int) + bytes[2];
      var _ := TransmitShape(a, Payload(id, Confirm), f.confirm);
      ConfirmsIs(a, id, f.confirm);
      ComplainsIs(Confirms(a, id, f.confirm), f);
    }
  }

  /** Over TCP a message that cannot be decoded is answered at once: nothing is ever outstanding there. */
  lemma RefusedMessageIs(c: Client, bytes: seq<byte>, junk: MessageId, f: Faults)
    requires c.mode == TCP && Enabled(c, Socket(Arrived(bytes, junk), f)) && Tcp.Decode(bytes) == None
    ensures Step(c, Socket(Arrived(bytes, junk), f)) == Complains(c.(control := Handling(false, c.control.stdin)), f)
  {
    hide Tcp.Decode, SendMalformed, Complains;
    var a := c.(control := Handling(false, c.control.stdin));
    ComplainsIs(a.(error := true), f);
    ComplainsFrame(a, f);
  }

  /** A CONFIRM, when no error is pending: with the outstanding ID it confirms, with another it does nothing. */
  lemma ConfirmIs(c: Client, packet: Packet, f: Faults)
    requires Enabled(c, Socket(packet, f)) && Receive(c.mode, packet).Got? && Receive(c.mode, packet).p.body.Confirm?
    ensures var a := c.(control := Handling(false, c.control.stdin));
            Step(c, Socket(packet, f)) ==
            if c.error then Complains(a, f)
            else if Receive(c.mode, packet).p.id == c.current.id then a.(confirmed := true, retries := 0)
            else a
  {
    hide Receive, SendMalformed, Complains;
    ComplainsIs(c.(control := Handling(false, c.control.stdin)), f);
  }

  /** Acting on a payload, by its type. */
  function ActsOn(c: Client, p: Payload, f: Faults): Client {
    var b := c.(received := c.received + {p.id}, log := c.log + [Processed(p, c.state)]);
    match p.body
    case Confirm => b
    case Message(_, _) => b
    case Reply(ok, _, _) =>
      if ok && (c.state == StateAuth || c.state == StateOpen) then b.(state := StateOpen)
      else if !ok && c.state == StateAuth then b.(state := StateNotAuth)
      else b
    case Err(_, _) => Says(b, Body.Bye, f).(state := StateEnd)
    case Bye => (if c.state == StateOpen then b else Says(b, Body.Bye, f)).(state := StateEnd)
    case Auth(_, _, _) => Complains(b, f)
    case Join(_, _) => Complains(b, f)
  }

  lemma ActsOnIs(c: Client, p: Payload, f: Faults)
    requires !c.error
    ensures Process(c, p, f) == ActsOn(c, p, f)
  {
    hide SendMalformed, Complains, ClientSend, Says;
    var b := c.(received := c.received + {p.id}, log := c.log + [Processed(p, c.state)]);
    SendIs(b, Body.Bye, f);
    ComplainsIs(b, f);
    assert b.(error := false) == b;
  }

  /**
   A payload that decodes.  Over UDP it is dropped while something is outstanding, and otherwise
   confirmed first; a repeated one then does nothing.  Over TCP it is always acted on, without a CONFIRM.
   */
  lemma PayloadIs(c: Client, packet: Packet, f: Faults)
    requires Enabled(c, Socket(packet, f)) && Receive(c.mode, packet).Got? && !Receive(c.mode, packet).p.body.Confirm?
    ensures var p := Receive(c.mode, packet).p;
            var a := c.(control := Handling(false, c.control.stdin));
            var b := if c.mode == UDP then Confirms(a, p.id, f.confirm) else a;
            Step(c, Socket(packet, f)) ==
            if !c.confirmed then a
            else if b.error then Complains(b, f)
            else if c.mode == UDP && p.id in c.received then b
            else ActsOn(b, p, f)
  {
    hide Receive, SendMalformed, Complains, Process, ActsOn, Transmit, TypeCode;
    var p := Receive(c.mode, packet).p;
    Coherence.CodeOfConfirm(p.body);
    var a := c.(control := Handling(false, c.control.stdin));
    ConfirmsIs(a, p.id, f.confirm);
    var b := if c.mode == UDP then Confirms(a, p.id, f.confirm) else a;
    ComplainsIs(b, f);
    if !b.error {
      ActsOnIs(b, p, f);
    }
  }

  // ---------------------------------------------------------------- the whole budget

  /** `n` times round the loop with nothing to read: each time the poll runs out of time. */
  function Quiet(n: nat): seq<Event> {
    if n == 0 then [] else Quiet(n - 1) + [Enter] + [Expire(NO_FAULTS)]
  }

  /** The outstanding payload once more, cut to three bytes while an error is pending. */
  function Copy(c: Client): Entry {
    Sent(c.current, if c.error then Udp.Encode(c.current)[..3] else Udp.Encode(c.current))
  }

  function Copies(c: Client, n: nat): seq<Entry> {
    if n == 0 then [] else Copies(c, n - 1) + [Copy(c)]
  }

  lemma CopySent(c: Client)
    requires c.mode == UDP
    ensures Transmit(c, c.current, false) == c.(log := c.log + [Copy(c)])
  {
    hide Udp.Decode, Udp.Text;
    Wire.CutDatagram(c.current);
  }

  lemma OneCopy(c: Client)
    requires c.mode == UDP && c.control == Checking && !c.confirmed
    ensures Step(Step(c, Enter), Expire(NO_FAULTS)) ==
            if c.retries < c.limit then c.(retries := c.retries + 1, log := c.log + [Copy(c)])
            else c.(retries := c.retries + 1, state := StateEnd, control := Stopped)
  {
    hide Transmit, Copy;
    CopySent(c.(retries := c.retries + 1));
    SameCopy(c.(retries := c.retries + 1), c);
  }

  lemma {:induction false} QuietIs(c: Client, n: nat)
    requires c.mode == UDP && c.control == Checking && !c.confirmed && c.retries + n <= c.limit
    ensures Run(c, Quiet(n)) == c.(retries := c.retries + n, log := c.log + Copies(c, n))
  {
    hide Copy, Run, Step;
    if n == 0 {
      RunNone(c);
      assert c.log + [] == c.log;
    } else {
      QuietIs(c, n - 1);
      var b := Run(c, Quiet(n - 1));
      OneCopy(b);
      RunThen(c, Quiet(n - 1), Enter);
      RunThen(c, Quiet(n - 1) + [Enter], Expire(NO_FAULTS));
      SameCopy(b, c);
      assert c.log + Copies(c, n - 1) + [Copy(c)] == c.log + (Copies(c, n - 1) + [Copy(c)]);
    }
  }

  lemma SameCopy(b: Client, c: Client)
    requires b.current == c.current && b.error == c.error
    ensures Copy(b) == Copy(c)
  {
  }

  /**
   The budget is spent: whatever is outstanding over UDP in a reachable state at the loop test is sent
   again once for each timeout that is left, whole unless an error is pending, and one more timeout
   stops the client.
   */
  lemma BudgetIsSpent(limit: nat, es: seq<Event>)
    requires var c := Run(Init(UDP, limit), es); c.control == Checking && !c.confirmed
    ensures var c := Run(Init(UDP, limit), es);
            && c.retries <= limit
            && forall n: nat :: n <= limit - c.retries ==>
                 Run(c, Quiet(n)) == c.(retries := c.retries + n, log := c.log + Copies(c, n))
    ensures var c := Run(Init(UDP, limit), es);
            var d := Run(c, Quiet(limit - c.retries + 1));
            d.control == Stopped && d.state == StateEnd && d.log == c.log + Copies(c, limit - c.retries)
  {
    hide Run, Kept, Quiet, Copies;
    var c := Run(Init(UDP, limit), es);
    KeptRun(UDP, limit, es);
    RunLimit(UDP, limit, es);
    forall n: nat | n <= limit - c.retries
      ensures Run(c, Quiet(n)) == c.(retries := c.retries + n, log := c.log + Copies(c, n))
    {
      QuietIs(c, n);
    }
    LastQuiet(c, limit - c.retries);
  }

  lemma LastQuiet(c: Client, n: nat)
    requires c.mode == UDP && c.control == Checking && !c.confirmed && c.retries + n == c.limit
    ensures var d := Run(c, Quiet(n + 1)); d.control == Stopped && d.state == StateEnd && d.log == c.log + Copies(c, n)
  {
    hide Run, Step, Copies;
    QuietIs(c, n);
    OneCopy(Run(c, Quiet(n)));
    RunThen(c, Quiet(n), Enter);
    RunThen(c, Quiet(n) + [Enter], Expire(NO_FAULTS));
  }

  lemma {:induction false} RunLimit(mode: Mode, limit: nat, es: seq<Event>)
    ensures Run(Init(mode, limit), es).limit == limit
  {
    if es != [] {
      hide Step;
      RunLimit(mode, limit, es[..|es| - 1]);
      StepMode(Run(Init(mode, limit), es[..|es| - 1]), es[|es| - 1]);
    }
  }

  function Times(e: Entry, n: nat): seq<Entry> {
    if n == 0 then [] else Times(e, n - 1) + [e]
  }

  lemma {:induction false} CopiesTimes(c: Client, n: nat)
    ensures Copies(c, n) == Times(Copy(c), n)
  {
    hide Copy;
    if n > 0 {
      CopiesTimes(c, n - 1);
    }
  }

  lemma {:induction false} OneMoreFirst(e: Entry, n: nat)
    ensures [e] + Times(e, n) == Times(e, n + 1)
  {
    if n == 0 {
      assert [e] + [] == [] + [e];
    } else {
      OneMoreFirst(e, n - 1);
      assert [e] + Times(e, n) == ([e] + Times(e, n - 1)) + [e];
    }
  }

  /** The login as bytes: when nothing ever comes back, the AUTH goes out R + 1 times and the client gives up. */
  lemma AuthIsRepeated(limit: nat)
    ensures var p := Payload(0, Auth(username := [97], displayName := [97], secret := [97]));
            var d := Run(Init(UDP, limit), Interrupts.LoginRun() + Quiet(limit + 1));
            && d.control == Stopped && d.state == StateEnd
            && d.log == [Issued(p)] + Times(Sent(p, [2, 0, 0, 97, 0, 97, 0, 97, 0]), limit + 1)
  {
    hide Run, Interrupts.LoginRun, Quiet, Copies, Copy, Times;
    var c := Run(Init(UDP, limit), Interrupts.LoginRun());
    LoginIs(limit);
    var p := Payload(0, Auth([97], [97], [97]));
    var e := Sent(p, [2, 0, 0, 97, 0, 97, 0, 97, 0]);
    RunConcat(Init(UDP, limit), Interrupts.LoginRun(), Quiet(limit + 1));
    BudgetIsSpent(limit, Interrupts.LoginRun());
    CopiesTimes(c, limit);
    OneMoreFirst(e, limit);
    assert [Issued(p)] + [e] + Times(e, limit) == [Issued(p)] + ([e] + Times(e, limit));
  }

  lemma LoginIs(limit: nat)
    ensures var c := Run(Init(UDP, limit), Interrupts.LoginRun());
            var p := Payload(0, Auth([97], [97], [97]));
            var e := Sent(p, [2, 0, 0, 97, 0, 97, 0, 97, 0]);
            c.control == Checking && !c.confirmed && c.retries == 0 && c.log == [Issued(p)] + [e] && Copy(c) == e
  {
    hide Run, Interrupts.LoginRun, Exchanges.Said, Udp.Encode;
    Interrupts.LogsIn(limit);
    SaidLogin(limit);
    AuthBytes();
  }

  lemma SaidLogin(limit: nat)
    ensures var c := Exchanges.Said(Init(UDP, limit), Exchanges.LOGIN);
            var p := Payload(0, Auth([97], [97], [97]));
            && !c.confirmed && c.retries == 0 && !c.error && c.current == p
            && c.log == [Issued(p)] + [Sent(p, Udp.Encode(p))]
  {
    hide Udp.Encode;
  }

  lemma AuthBytes()
    ensures Udp.Encode(Payload(0, Auth([97], [97], [97]))) == [2, 0, 0, 97, 0, 97, 0, 97, 0]
  {
    hide Udp.Encode, Wire.Legal, Udp.Decode;
    LetterLegal();
    Wire.AuthDatagram(0, 0, [97], [97], [97]);
    assert [2, 0, 0] + [97] + [0] + [97] + [0] + [97] + [0] == [2, 0, 0, 97, 0, 97, 0, 97, 0];
  }

  lemma LetterLegal()
    ensures Wire.Legal(Username, [97]) && Wire.Legal(DisplayName, [97]) && Wire.Legal(Secret, [97])
  {
  }
}
