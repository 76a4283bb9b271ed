/**
 A signal in the middle of a handler: right before the handler's last assignment to STATE, which then
 overwrites the End that the signal has set.
 */
module Interrupts {
  import opened Window
  import opened Payloads
  import opened Protocol
  import opened Phases
  import opened StopAndWait
  import opened Exchanges
  import opened Farewell
  import Commands
  import Udp

  /** The client just before the assignment, and the state assigned. */
  datatype Write = Write(before: Client, state: State)

  function ProcessWrite(c: Client, p: Payload, f: Faults): Option<Write> {
    match p.body
    case Confirm => None
    case Auth(_, _, _) => Some(Write(ClientSend(c, Err(c.name, MalformedText()), f), StateError))
    case Join(_, _) => Some(Write(ClientSend(c, Err(c.name, MalformedText()), f), StateError))
    case Reply(result, _, _) =>
      if c.state != StateAuth && c.state != StateOpen then None
      else if result then Some(Write(c, StateOpen))
      else if c.state == StateAuth then Some(Write(c, StateNotAuth))
      else None
    case Message(_, _) => None
    case Err(_, _) => Some(Write(ClientSend(c, Body.Bye, f), StateEnd))
    case Bye => Some(Write(if c.state != StateOpen then ClientSend(c, Body.Bye, f) else c, StateEnd))
  }

  /** The payload is acted on: decoded without error, no CONFIRM, and new. */
  predicate ActsOn(c: Client, rx: Reception, f: Faults) {
    && rx.Got? && !rx.p.body.Confirm? && c.confirmed
    && !Transmit(c, Payload(rx.p.id, Confirm), f.confirm).error
    && (c.mode == UDP ==> rx.p.id !in c.received)
  }

  function SocketWrite(c: Client, rx: Reception, f: Faults): Option<Write> {
    if ActsOn(c, rx, f) then
      var b := Transmit(c, Payload(rx.p.id, Confirm), f.confirm);
      ProcessWrite(b.(received := b.received + {rx.p.id}, log := b.log + [Processed(rx.p, b.state)]), rx.p, f)
    else if rx.Ignored? then None
    else
      var code := if rx.Got? then TypeCode(rx.p.body) else rx.code;
      var id := if rx.Got? then rx.p.id else rx.id;
      var a := c.(error := c.error || rx.Bad?);
      var b := if code != CONFIRM then Transmit(a, Payload(id, Confirm), f.confirm) else a;
      if (code != CONFIRM && !a.confirmed) || !b.error then None
      else Some(Write(ClientSend(b.(error := false), Err(b.name, MalformedText()), f), StateError))
  }

  /** /auth is obeyed. */
  predicate Authenticates(c: Client, input: Input) {
    && input.Line? && input.text != [] && !c.error && (c.state == StateStart || c.state == StateNotAuth)
    && Understand(input.text).Some? && Understand(input.text).value.Authenticate?
  }

  function InputWrite(c: Client, input: Input, f: Faults): Option<Write> {
    if Authenticates(c, input) then
      var cmd := Understand(input.text).value;
      Some(Write(ClientSend(c.(name := cmd.displayName),
                           Auth(cmd.username, cmd.displayName, cmd.secret), f), StateAuth))
    else if input.Eof? then
      Some(Write(ClientSend(c.(error := c.error || |input.tail| > BYTES_SIZE), Body.Bye, f), StateEnd))
    else None
  }

  /** The last assignment of a handler to STATE, those of client_send aside. */
  function LastWrite(c: Client, e: Event): Option<Write>
    requires Enabled(c, e)
  {
    match e
    case Socket(packet, f) => SocketWrite(c.(control := Handling(false, c.control.stdin)), Receive(c.mode, packet), f)
    case Stdin(input, f) => InputWrite(c.(control := Handling(c.control.socket, false)), input, f)
    case Finish(f) =>
      if c.state == StateError && c.confirmed then
        Some(Write(ClientSend(c, Body.Bye, f).(control := Checking), StateEnd))
      else None
    case _ => None
  }

  lemma ProcessWriteIs(c: Client, p: Payload, f: Faults)
    requires !p.body.Confirm?
    ensures var b := c.(received := c.received + {p.id}, log := c.log + [Processed(p, c.state)]);
            match ProcessWrite(b, p, f)
            case Some(w) => Process(c, p, f) == w.before.(state := w.state)
            case None => Process(c, p, f) == b
  {
    hide ClientSend, MalformedText, Ascii;
  }

  lemma SocketWriteIs(c: Client, rx: Reception, f: Faults)
    ensures match SocketWrite(c, rx, f)
            case Some(w) => HandleSocket(c, rx, f) == w.before.(state := w.state)
            case None => HandleSocket(c, rx, f).state == c.state
  {
    hide ClientSend, MalformedText, Ascii, Process, ProcessWrite, Udp.Datagram;
    if rx.Got? && !rx.p.body.Confirm? {
      ProcessWriteIs(Transmit(c, Payload(rx.p.id, Confirm), f.confirm), rx.p, f);
    }
  }

  lemma InputWriteIs(c: Client, input: Input, f: Faults)
    ensures match InputWrite(c, input, f)
            case Some(w) => HandleInput(c, input, f) == w.before.(state := w.state)
            case None => HandleInput(c, input, f).state in {c.state, StateError, StateEnd}
  {
    hide ClientSend, Understand;
    SendAny();
  }

  /** A handler is what comes before its last assignment to STATE, and then the assignment. */
  lemma LastWriteIs(c: Client, e: Event)
    requires Enabled(c, e)
    ensures match LastWrite(c, e)
            case Some(w) => Step(c, e) == w.before.(state := w.state)
            case None => Step(c, e).state in {c.state, StateError, StateEnd}
  {
    hide ClientSend, HandleSocket, HandleInput, SocketWrite, InputWrite, Receive;
    match e
    case Socket(packet, f) =>
      SocketWriteIs(c.(control := Handling(false, c.control.stdin)), Receive(c.mode, packet), f);
    case Stdin(input, f) => InputWriteIs(c.(control := Handling(c.control.socket, false)), input, f);
    case _ => SendAny();
  }

  /** The step, with a signal right before that assignment. */
  function Interrupted(c: Client, e: Event, g: Faults): Client
    requires Enabled(c, e) && LastWrite(c, e).Some?
  {
    var w := LastWrite(c, e).value;
    HandleSignal(w.before, g).(state := w.state)
  }

  /** The step obeys /auth, or acts on a REPLY that moves the state. */
  predicate Reopens(c: Client, e: Event)
    requires Enabled(c, e)
  {
    match e
    case Socket(packet, f) => ReopensBy(c, Receive(c.mode, packet), f)
    case Stdin(input, _) => Authenticates(c, input)
    case _ => false
  }

  /** The step answers a packet with an ERR: a malformed one, an error pending, or an AUTH or JOIN from the server. */
  predicate Complains(c: Client, e: Event)
    requires Enabled(c, e)
  {
    e.Socket? && ComplainsOf(c, Receive(c.mode, e.packet), e.f)
  }

  predicate ComplainsOf(c: Client, rx: Reception, f: Faults) {
    && !rx.Ignored?
    && var code := if rx.Got? then TypeCode(rx.p.body) else rx.code;
       var id := if rx.Got? then rx.p.id else rx.id;
       var a := c.(error := c.error || rx.Bad?);
       && (code == CONFIRM || c.confirmed)
       && ((if code == CONFIRM then a else Transmit(a, Payload(id, Confirm), f.confirm)).error
           || (ActsOn(c, rx, f) && (rx.p.body.Auth? || rx.p.body.Join?)))
  }

  predicate ReopensBy(c: Client, rx: Reception, f: Faults) {
    && ActsOn(c, rx, f) && rx.p.body.Reply?
    && (c.state == StateAuth || (c.state == StateOpen && rx.p.body.result))
  }

  lemma SocketWrites(c: Client, rx: Reception, f: Faults)
    ensures SocketWrite(c, rx, f).Some? ==>
              && (SocketWrite(c, rx, f).value.state == StateError <==> ComplainsOf(c, rx, f))
              && (SocketWrite(c, rx, f).value.state in {StateAuth, StateNotAuth, StateOpen} <==> ReopensBy(c, rx, f))
              && SocketWrite(c, rx, f).value.state != StateStart
    ensures SocketWrite(c, rx, f).None? ==> !ComplainsOf(c, rx, f)
  {
    hide ClientSend, MalformedText, Ascii, Udp.Datagram;
  }

  lemma SocketFrame(c: Client, rx: Reception, f: Faults)
    ensures forall k: Control ::
              && ActsOn(c.(control := k), rx, f) == ActsOn(c, rx, f)
              && ComplainsOf(c.(control := k), rx, f) == ComplainsOf(c, rx, f)
  {
    hide Udp.Datagram;
  }

  /** What the interrupted handler makes of the End that the signal has set. */
  lemma WriteExact(c: Client, e: Event)
    requires Enabled(c, e) && LastWrite(c, e).Some?
    ensures var w := LastWrite(c, e).value;
            && (w.state == StateError <==> Complains(c, e))
            && (w.state in {StateAuth, StateNotAuth, StateOpen} <==> Reopens(c, e))
            && w.state != StateStart
  {
    hide ClientSend, Understand, SocketWrite, ActsOn, ComplainsOf, Receive;
    if e.Socket? {
      SocketWrites(c.(control := Handling(false, c.control.stdin)), Receive(c.mode, e.packet), e.f);
      SocketFrame(c, Receive(c.mode, e.packet), e.f);
    }
  }

  /**
   The signal sets End, and the interrupted handler overwrites it exactly in two cases.  It goes back
   to an earlier phase when it obeys /auth or acts on a REPLY that moves the state, and it changes End
   to Error when it answers a packet with an ERR.
   */
  lemma InterruptOverwrites(c: Client, e: Event, g: Faults)
    requires Enabled(c, e) && LastWrite(c, e).Some?
    ensures var w := LastWrite(c, e).value;
            && Step(c, e) == w.before.(state := w.state)
            && HandleSignal(w.before, g).state == StateEnd
            && (Interrupted(c, e, g).state != StateEnd <==> Reopens(c, e) || Complains(c, e))
            && (Interrupted(c, e, g).state == StateError <==> Complains(c, e))
            && (Rank(Interrupted(c, e, g).state) < Rank(StateEnd) <==> Reopens(c, e))
  {
    hide ClientSend, LastWrite, Step, Reopens, Complains;
    LastWriteIs(c, e);
    WriteExact(c, e);
  }

  /**
   What is outstanding then.  Seen from state Start the signal is lost altogether; otherwise it leaves a
   BYE outstanding, or an ERR when an error is pending, whatever state the handler then sets.
   */
  lemma InterruptLeaves(c: Client, e: Event)
    requires Enabled(c, e) && LastWrite(c, e).Some?
    ensures var b := LastWrite(c, e).value.before;
            var d := Interrupted(c, e, NO_FAULTS);
            if b.state == StateStart then d == Step(c, e)
            else (d.current.body.Bye? <==> !b.error) && (d.current.body.Err? <==> b.error)
  {
    hide ClientSend, LastWrite, Step;
    LastWriteIs(c, e);
    ByeSent(LastWrite(c, e).value.before);
  }

  /** At the first /auth the signal is lost: it sends nothing, and the client goes on to state Auth. */
  lemma SignalLost(limit: nat)
    ensures var c := Run(Init(UDP, limit), [Enter] + [Ready(false, true)]);
            var e := Stdin(Line(Commands.Render(LOGIN)), NO_FAULTS);
            && Enabled(c, e) && LastWrite(c, e).Some?
            && Interrupted(c, e, NO_FAULTS) == Step(c, e) && Step(c, e).state == StateAuth
  {
    hide ClientSend, Understand, Commands.Render;
    LoginTypable();
    FirstLine(limit);
    var c := Init(UDP, limit).(control := Handling(false, true));
    var e := Stdin(Line(Commands.Render(LOGIN)), NO_FAULTS);
    assert Authenticates(c, e.input);
    assert Enabled(c, e);
    var a := c.(control := Handling(false, false), name := LETTER);
    var b := ClientSend(a, Auth(LETTER, LETTER, LETTER), NO_FAULTS);
    assert LastWrite(c, e) == Some(Write(b, StateAuth));
    SendsOk(a, Auth(LETTER, LETTER, LETTER));
    LastWriteIs(c, e);
  }

  lemma FirstLine(limit: nat)
    ensures Run(Init(UDP, limit), [Enter] + [Ready(false, true)]) == Init(UDP, limit).(control := Handling(false, true))
  {
    var c := Init(UDP, limit);
    assert ([Enter] + [Ready(false, true)])[..1] == [Enter];
    assert Run(c, [Enter]) == Step(c, Enter);
  }

  /** A client over UDP in state Auth, with its AUTH confirmed, at the loop test. */
  function AuthConfirmed(limit: nat): Client {
    Confirmed(Said(Init(UDP, limit), LOGIN))
  }

  function LoginRun(): seq<Event> {
    [Enter] + [Ready(false, true)] + [Stdin(Line(Commands.Render(LOGIN)), NO_FAULTS)] + [Finish(NO_FAULTS)]
  }

  function ConfirmRun(): seq<Event> {
    [Enter] + [Ready(true, false)] + [Socket(ConfirmPacket(0), NO_FAULTS)] + [Finish(NO_FAULTS)]
  }

  lemma RunFour(c: Client, e1: Event, e2: Event, e3: Event, e4: Event)
    ensures Run(c, [e1] + [e2] + [e3] + [e4]) == Step(Step(Step(Step(c, e1), e2), e3), e4)
  {
    hide Run, Step;
    RunNone(c);
    RunThen(c, [], e1);
    assert [] + [e1] == [e1];
    RunThen(c, [e1], e2);
    RunThen(c, [e1] + [e2], e3);
    RunThen(c, [e1] + [e2] + [e3], e4);
  }

  lemma LogsIn(limit: nat)
    ensures Run(Init(UDP, limit), LoginRun()) == Said(Init(UDP, limit), LOGIN).(control := Checking)
  {
    hide Commands.Render, Understand, Run;
    LoginTypable();
    var c := Init(UDP, limit);
    SpeakStep(c, Commands.Render(LOGIN), LOGIN);
    RunFour(c, Enter, Ready(false, true), Stdin(Line(Commands.Render(LOGIN)), NO_FAULTS), Finish(NO_FAULTS));
    SaidFinishes(c);
  }

  lemma SaidFinishes(c: Client)
    requires Free(c)
    ensures Step(Said(c, LOGIN), Finish(NO_FAULTS)) == Said(c, LOGIN).(control := Checking)
  {
    hide Udp.Encode, ClientSend;
  }

  lemma LogInConfirmed(limit: nat)
    ensures Run(Init(UDP, limit), LoginRun() + ConfirmRun()) == AuthConfirmed(limit)
  {
    hide Run, LoginRun, Said, Step;
    LogsIn(limit);
    SaidOutstanding(limit);
    var c := Said(Init(UDP, limit), LOGIN).(control := Checking);
    ConfirmRound(c);
    RunFour(c, Enter, Ready(true, false), Socket(ConfirmPacket(0), NO_FAULTS), Finish(NO_FAULTS));
    RunConcat(Init(UDP, limit), LoginRun(), ConfirmRun());
  }

  lemma SaidOutstanding(limit: nat)
    ensures var c := Said(Init(UDP, limit), LOGIN);
            c.mode == UDP && !c.confirmed && !c.error && !Closing(c) && c.current.id == 0 && c.state == StateAuth
  {
    hide Udp.Encode;
  }

  /** A malformed datagram after the login, interrupted: the client is in Error, and what is outstanding is a BYE. */
  lemma ErrorWithBye(limit: nat)
    ensures var c := Run(Init(UDP, limit), LoginRun() + ConfirmRun() + [Enter] + [Ready(true, false)]);
            var e := Socket(CUT_MESSAGE, NO_FAULTS);
            && Enabled(c, e) && LastWrite(c, e).Some?
            && var d := Interrupted(c, e, NO_FAULTS); d.state == StateError && d.current.body.Bye? && !d.confirmed
  {
    hide Run, LoginRun, ConfirmRun, Said;
    var a := AuthConfirmed(limit);
    LogInConfirmed(limit);
    SaidOutstanding(limit);
    RunThen(Init(UDP, limit), LoginRun() + ConfirmRun(), Enter);
    RunThen(Init(UDP, limit), LoginRun() + ConfirmRun() + [Enter], Ready(true, false));
    var c := a.(control := Handling(true, false));
    assert Step(Step(a, Enter), Ready(true, false)) == c;
    BadInterrupted(c);
  }

  lemma BadInterrupted(c: Client)
    requires c.mode == UDP && c.confirmed && !c.error && c.state == StateAuth && c.control == Handling(true, false)
    ensures var e := Socket(CUT_MESSAGE, NO_FAULTS);
            && Enabled(c, e) && LastWrite(c, e).Some?
            && var d := Interrupted(c, e, NO_FAULTS); d.state == StateError && d.current.body.Bye? && !d.confirmed
  {
    hide ClientSend, Receive, MalformedText, Ascii;
    CutMessageIsBad();
    var a := c.(control := Handling(false, false), error := true);
    var b := Transmit(a, Payload(0, Confirm), false).(error := false);
    SendsOk(b, Err(b.name, MalformedText()));
    SendsOk(ClientSend(b, Err(b.name, MalformedText()), NO_FAULTS), Body.Bye);
  }
}
