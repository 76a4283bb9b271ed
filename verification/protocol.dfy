/**
 The client of src/client.c as a state machine.  One step is one handler call or one move of the
 event loop between its blocking points, so that a signal can arrive between any two of them.
 */
module Protocol {
  import opened Window
  import opened Payloads
  import Udp
  import Tcp
  import Commands

  datatype Mode = TCP | UDP

  datatype State = StateStart | StateNotAuth | StateAuth | StateOpen | StateError | StateEnd

  /** Where client_run is: at the loop test, in epoll_wait, dispatching ready descriptors, or done. */
  datatype Control =
    | Checking
    | Waiting(stdin: bool, timed: bool)
    | Handling(socket: bool, stdin: bool)
    | Stopped

  /** What the client does, in order: a new outstanding payload, bytes handed to the socket, a payload acted on. */
  datatype Entry =
    | Issued(p: Payload)
    | Sent(p: Payload, bytes: seq<byte>)
    | Processed(p: Payload, at: State)

  datatype Client = Client(
    mode: Mode,
    limit: nat,
    control: Control,
    state: State,
    name: seq<byte>,
    current: Payload,
    confirmed: bool,
    retries: nat,
    created: nat,
    received: set<MessageId>,
    error: bool,
    log: seq<Entry>)

  /** Which sends of one step the local network stack refuses. */
  datatype Faults = Faults(confirm: bool, first: bool, second: bool)

  const NO_FAULTS := Faults(false, false, false)

  /** What a receive call meets; over TCP the ID of the payload is whatever the memory held. */
  datatype Packet = Elsewhere | Failed | Arrived(bytes: seq<byte>, junk: MessageId)

  /** What reading a line meets: the end of input after some last bytes, or a line. */
  datatype Input = Eof(tail: seq<byte>) | Line(text: seq<byte>)

  datatype Event =
    | Signal(f: Faults)
    | Enter
    | PollError(f: Faults)
    | Expire(f: Faults)
    | Ready(socket: bool, stdin: bool)
    | Socket(packet: Packet, f: Faults)
    | Stdin(input: Input, f: Faults)
    | Finish(f: Faults)

  /** A received payload, or what is known of it when decoding sets an error. */
  datatype Reception = Ignored | Bad(code: byte, id: MessageId) | Got(p: Payload)

  function MalformedText(): seq<byte> {
    Ascii("Received malformed payload")
  }

  function SendFailedText(): seq<byte> {
    Ascii("Something went wrong") + Ascii(" when trying to") + Ascii(" send payload")
  }

  function Receive(mode: Mode, packet: Packet): Reception {
    match packet
    case Elsewhere => Ignored
    case Failed => Bad(0, 0)
    case Arrived(bytes, junk) =>
      if mode == UDP then
        match Udp.Decode(bytes)
        case Good(p) => Got(p)
        case Bad(code, id) => Reception.Bad(code, id)
      else
        match Tcp.Decode(bytes)
        case Some(b) => Got(Payload(junk, b))
        case None => Reception.Bad(0, junk)
  }

  // ---------------------------------------------------------------- sending

  /** payload_new into CURRENT_PAYLOAD; the ID counter has 16 bits. */
  function Issue(c: Client, body: Body): Client {
    var p := Payload(c.created % 0x1_0000, body);
    c.(current := p, created := c.created + 1, log := c.log + [Issued(p)])
  }

  /** CONNECTION.send: a pending error cuts a datagram to its header and stops a TCP message. */
  function Transmit(c: Client, p: Payload, fault: bool): Client {
    if c.mode == UDP then
      if fault then c.(error := true) else c.(log := c.log + [Sent(p, Udp.Datagram(p, c.error))])
    else if p.body.Confirm? then c
    else if c.error || fault || !Tcp.Printable(p.body) then c.(error := true)
    else c.(log := c.log + [Sent(p, Tcp.Encode(p.body))])
  }

  /** The first half of client_send: if sending fails, an ERR takes the payload's place. */
  function SendOrErr(c: Client, body: Body, f: Faults): Client {
    var a := Issue(c, body);
    var b := Transmit(a, a.current, f.first);
    if b.error then
      var e := Issue(b.(error := false), Err(c.name, SendFailedText()));
      Transmit(e, e.current, f.second).(state := StateError)
    else b
  }

  function ClientSend(c: Client, body: Body, f: Faults): Client {
    var s := SendOrErr(c, body, f);
    if s.error then s.(state := StateEnd) else s.(confirmed := c.mode == TCP)
  }

  // ---------------------------------------------------------------- the handlers

  function HandleSignal(c: Client, f: Faults): Client {
    (if c.state != StateStart then ClientSend(c, Bye, f) else c).(state := StateEnd)
  }

  /** The test for State_Start in the source comes after STATE is overwritten, so it never holds. */
  function HandlePollError(c: Client, f: Faults): Client {
    ClientSend(c.(state := StateEnd), Bye, f)
  }

  function HandleTimeout(c: Client, f: Faults): Client {
    var c' := c.(retries := c.retries + 1);
    if c'.retries > c.limit then c'.(state := StateEnd, control := Stopped)
    else Transmit(c', c.current, f.first)
  }

  function SendMalformed(c: Client, f: Faults): Client {
    ClientSend(c, Err(c.name, MalformedText()), f).(state := StateError)
  }

  function HandleReply(c: Client, result: bool): Client {
    if c.state != StateAuth && c.state != StateOpen then c
    else if result then c.(state := StateOpen)
    else if c.state == StateAuth then c.(state := StateNotAuth)
    else c
  }

  function Process(c: Client, p: Payload, f: Faults): Client {
    var c' := c.(received := c.received + {p.id}, log := c.log + [Processed(p, c.state)]);
    match p.body
    case Confirm => c'
    case Auth(_, _, _) => SendMalformed(c', f)
    case Join(_, _) => SendMalformed(c', f)
    case Reply(result, _, _) => HandleReply(c', result)
    case Message(_, _) => c'
    case Err(_, _) => ClientSend(c', Bye, f).(state := StateEnd)
    case Bye => (if c.state != StateOpen then ClientSend(c', Bye, f) else c').(state := StateEnd)
  }

  function HandleConfirm(c: Client, id: MessageId): Client {
    if id == c.current.id then c.(confirmed := true, retries := 0) else c
  }

  /** A payload decoded without error. */
  function Accept(c: Client, p: Payload, f: Faults): Client {
    if p.body.Confirm? then HandleConfirm(c, p.id)
    else if c.mode == UDP && p.id in c.received then c
    else Process(c, p, f)
  }

  function HandleSocket(c: Client, rx: Reception, f: Faults): Client {
    if rx.Ignored? then c.(error := false)
    else
      var code := if rx.Got? then TypeCode(rx.p.body) else rx.code;
      var id := if rx.Got? then rx.p.id else rx.id;
      var a := c.(error := c.error || rx.Bad?);
      if code != CONFIRM && !a.confirmed then a
      else
        var b := if code != CONFIRM then Transmit(a, Payload(id, Confirm), f.confirm) else a;
        if b.error then SendMalformed(b.(error := false), f)
        else if rx.Got? then Accept(b, rx.p, f)
        else b
  }

  function Obey(c: Client, cmd: Commands.Command, f: Faults): Client {
    match cmd
    case Say(text) =>
      if c.state != StateOpen then c else ClientSend(c, Message(c.name, text), f)
    case Authenticate(username, secret, displayName) =>
      if c.state != StateStart && c.state != StateNotAuth then c
      else ClientSend(c.(name := displayName), Auth(username, displayName, secret), f).(state := StateAuth)
    case JoinChannel(channelId) =>
      if c.state != StateOpen then c else ClientSend(c, Join(channelId, c.name), f)
    case Rename(displayName) => c.(name := displayName)
    case Help => c
    case Clear => c
    case Exit => ClientSend(c.(state := StateEnd), Bye, f)
  }

  /** A line as a C string: up to its first NUL. */
  function CString(s: seq<byte>): (t: seq<byte>)
    ensures t <= s && NUL !in t && (|t| < |s| ==> s[|t|] == NUL)
  {
    if s == [] || s[0] == NUL then [] else [s[0]] + CString(s[1..])
  }

  /** What a line is taken for; it does not fit the buffer together with its terminator beyond 1500 bytes. */
  function Understand(text: seq<byte>): Option<Commands.Command> {
    if |text| >= BYTES_SIZE then None else Commands.Parse(CString(text))
  }

  function HandleInput(c: Client, input: Input, f: Faults): Client {
    match input
    case Eof(tail) => ClientSend(c.(error := c.error || |tail| > BYTES_SIZE), Bye, f).(state := StateEnd)
    case Line(text) =>
      if text == [] then c
      else
        var cmd := Understand(text);
        if cmd.None? || c.error then c.(error := false) else Obey(c, cmd.value, f)
  }

  /** The end of a loop iteration. */
  function HandleFinish(c: Client, f: Faults): Client {
    if c.state == StateError && c.confirmed then ClientSend(c, Bye, f).(state := StateEnd) else c
  }

  /** A line is obeyed exactly when it fits and its C string, trimmed, is the canonical line of a valid command. */
  lemma UnderstandExact(text: seq<byte>, cmd: Commands.Command)
    ensures Understand(text) == Some(cmd)
            <==> |text| < BYTES_SIZE && Commands.ValidCommand(cmd) && Trim(CString(text), SPACE) == Commands.Render(cmd)
  {
    hide Commands.Parse, Commands.ValidCommand, Commands.Render, Trim;
    Commands.ParseExact(CString(text), cmd);
  }

  // ---------------------------------------------------------------- the event loop

  function Init(mode: Mode, limit: nat): Client {
    Client(mode, limit, Checking, StateStart, [], Payload(0, Confirm), true, 0, 0, {}, false, [])
  }

  /** The loop test, and the choice of what to poll and for how long. */
  function HandleEnter(c: Client): Client {
    c.(control :=
      if c.state == StateEnd && c.confirmed then Stopped
      else Waiting(c.state != StateAuth && c.confirmed, !c.confirmed))
  }

  /** The event can happen where client_run is. */
  predicate Occurs(mode: Mode, at: Control, e: Event) {
    match e
    case Signal(_) => at != Stopped
    case Enter => at == Checking
    case PollError(_) => at.Waiting?
    case Expire(_) => at.Waiting? && at.timed
    case Ready(socket, stdin) => at.Waiting? && (socket || stdin) && (stdin ==> at.stdin)
    case Socket(packet, _) =>
      && at.Handling? && at.socket
      && (packet.Arrived? ==> |packet.bytes| <= BYTES_SIZE) && (packet.Elsewhere? ==> mode == UDP)
    case Stdin(_, _) => at.Handling? && at.stdin
    case Finish(_) => at == Handling(false, false)
  }

  predicate Enabled(c: Client, e: Event) {
    Occurs(c.mode, c.control, e)
  }

  /** An event that cannot happen here changes nothing, so every sequence of events is a run. */
  function Step(c: Client, e: Event): Client {
    if !Enabled(c, e) then c
    else
      match e
      case Signal(f) => HandleSignal(c, f)
      case Enter => HandleEnter(c)
      case PollError(f) => HandlePollError(c, f).(control := Checking)
      case Expire(f) => HandleTimeout(c.(control := Checking), f)
      case Ready(socket, stdin) => c.(control := Handling(socket, stdin))
      case Socket(packet, f) =>
        HandleSocket(c.(control := Handling(false, c.control.stdin)), Receive(c.mode, packet), f)
      case Stdin(input, f) => HandleInput(c.(control := Handling(c.control.socket, false)), input, f)
      case Finish(f) => HandleFinish(c, f).(control := Checking)
  }

  function Run(c: Client, es: seq<Event>): Client {
    if es == [] then c else Step(Run(c, es[..|es| - 1]), es[|es| - 1])
  }

  lemma RunNone(c: Client)
    ensures Run(c, []) == c
  {
  }

  lemma RunThen(c: Client, es: seq<Event>, e: Event)
    ensures Run(c, es + [e]) == Step(Run(c, es), e)
  {
    assert (es + [e])[..|es|] == es;
  }

  lemma {:induction false} RunConcat(c: Client, a: seq<Event>, b: seq<Event>)
    ensures Run(c, a + b) == Run(Run(c, a), b)
  {
    if b == [] {
      assert a + b == a;
    } else {
      RunConcat(c, a, b[..|b| - 1]);
      assert (a + b)[..|a + b| - 1] == a + b[..|b| - 1];
    }
  }

  /** The event comes with no local send failure. */
  predicate Faultless(e: Event) {
    match e
    case Signal(f) => f == NO_FAULTS
    case PollError(f) => f == NO_FAULTS
    case Expire(f) => f == NO_FAULTS
    case Socket(_, f) => f == NO_FAULTS
    case Stdin(_, f) => f == NO_FAULTS
    case Finish(f) => f == NO_FAULTS
    case _ => true
  }

  predicate AllFaultless(es: seq<Event>) {
    forall i :: 0 <= i < |es| ==> Faultless(es[i])
  }
}
