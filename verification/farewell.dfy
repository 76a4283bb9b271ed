/**
 How the client says goodbye: when a BYE goes out, when an ERR takes its place, and when the server
 hears nothing at all.
 */
module Farewell {
  import opened Window
  import opened Payloads
  import opened Protocol
  import opened Phases
  import opened StopAndWait
  import opened Exchanges
  import Commands
  import Udp
  import Tcp

  // ---------------------------------------------------------------- the error left pending

  /** A malformed datagram arrives while a payload is unconfirmed: it is dropped, its error stays. */
  predicate Drops(c: Client, e: Event) {
    Enabled(c, e) && e.Socket? && !c.confirmed
    && var rx := Receive(c.mode, e.packet); rx.Bad? && rx.code != CONFIRM
  }

  /** The input ends in a text that the buffer cannot hold, which sets an error too. */
  predicate EndsOverlong(c: Client, e: Event) {
    Enabled(c, e) && e.Stdin? && e.input.Eof? && |e.input.tail| > BYTES_SIZE
  }

  predicate Spoils(c: Client, e: Event) {
    Drops(c, e) || EndsOverlong(c, e)
  }

  /** No error is pending, and what a closing client waits for is its BYE. */
  predicate Tidy(c: Client) {
    !c.error && (c.state == StateEnd && !c.confirmed && c.control != Stopped ==> c.current.body.Bye?)
  }

  lemma SocketTidy(c: Client, rx: Reception)
    requires Settled(c) && Tidy(c) && c.mode == UDP && c.control.Handling?
    requires rx.Bad? ==> c.confirmed || rx.code == CONFIRM
    ensures Tidy(HandleSocket(c, rx, NO_FAULTS))
  {
    hide Udp.Datagram, Process, ClientSend;
    if rx.Got? && !rx.p.body.Confirm? {
      forall d: Client | Tidy(d) && d.mode == UDP && Settled(d) && d.confirmed && d.control.Handling?
        ensures Tidy(Process(d, rx.p, NO_FAULTS))
      {
        ProcessTidy(d, rx.p);
      }
    }
    forall d: Client | Pending(d) && d.mode == UDP && !d.error
      ensures Tidy(SendMalformed(d, NO_FAULTS))
    {
      SendsOk(d, Err(d.name, MalformedText()));
    }
  }

  lemma ProcessTidy(c: Client, p: Payload)
    requires Settled(c) && Tidy(c) && c.mode == UDP && c.confirmed && !p.body.Confirm?
    ensures Tidy(Process(c, p, NO_FAULTS))
  {
    var d := c.(received := c.received + {p.id}, log := c.log + [Processed(p, c.state)]);
    SendsOk(d, Body.Bye);
    SendsOk(d, Err(d.name, MalformedText()));
    hide ClientSend;
  }

  lemma InputTidy(c: Client, input: Input)
    requires Settled(c) && Tidy(c) && c.mode == UDP && c.control.Handling?
    requires input.Eof? ==> |input.tail| <= BYTES_SIZE
    ensures Tidy(HandleInput(c, input, NO_FAULTS))
  {
    hide ClientSend, Obey, Understand;
    match input
    case Eof(tail) => SendsOk(c.(error := c.error || |tail| > BYTES_SIZE), Body.Bye);
    case Line(text) =>
      if Understand(text).Some? {
        ObeyTidy(c, Understand(text).value);
      }
  }

  lemma ObeyTidy(c: Client, cmd: Commands.Command)
    requires Settled(c) && Tidy(c) && c.mode == UDP && c.control.Handling?
    ensures Tidy(Obey(c, cmd, NO_FAULTS))
  {
    hide ClientSend;
    match cmd
    case Say(text) => SendsOk(c, Message(c.name, text));
    case Authenticate(u, s, d) => SendsOk(c.(name := d), Auth(u, d, s));
    case JoinChannel(ch) => SendsOk(c, Join(ch, c.name));
    case Exit => SendsOk(c.(state := StateEnd), Body.Bye);
    case _ =>
  }

  lemma SpoilsUntidy(c: Client, e: Event)
    requires Settled(c) && c.mode == UDP && Spoils(c, e) && Faultless(e)
    ensures !Tidy(Step(c, e))
  {
    hide Receive, ClientSend;
    if !Drops(c, e) {
      SendsOk(c.(control := Handling(c.control.socket, false), error := true), Body.Bye);
    }
  }

  /** The client stays tidy exactly when the event is neither of these. */
  lemma TidyExactly(c: Client, e: Event)
    requires Settled(c) && Tidy(c) && c.mode == UDP && Faultless(e)
    ensures Tidy(Step(c, e)) <==> !Spoils(c, e)
  {
    hide Step, Spoils, Settled;
    if Spoils(c, e) {
      SpoilsUntidy(c, e);
    } else {
      StepTidy(c, e);
    }
  }

  lemma StepTidy(c: Client, e: Event)
    requires Settled(c) && Tidy(c) && c.mode == UDP && Faultless(e) && !Spoils(c, e)
    ensures Tidy(Step(c, e))
  {
    hide ClientSend, HandleSocket, HandleInput, Receive, Udp.Datagram;
    SendsOk(c, Body.Bye);
    SendsOk(c.(state := StateEnd), Body.Bye);
    if Enabled(c, e) {
      match e
      case Socket(packet, f) => SocketTidy(c.(control := Handling(false, c.control.stdin)), Receive(c.mode, packet));
      case Stdin(input, f) => InputTidy(c.(control := Handling(c.control.socket, false)), input);
      case _ =>
    }
  }

  lemma {:induction false} RunTidy(limit: nat, es: seq<Event>)
    requires AllFaultless(es)
    requires forall i :: 0 <= i < |es| ==> !Spoils(Run(Init(UDP, limit), es[..i]), es[i])
    ensures Tidy(Run(Init(UDP, limit), es))
  {
    if es != [] {
      var init := es[..|es| - 1];
      assert forall i :: 0 <= i < |init| ==> init[..i] == es[..i];
      RunTidy(limit, init);
      RunSettled(UDP, limit, init);
      KeptRun(UDP, limit, init);
      StepTidy(Run(Init(UDP, limit), init), es[|es| - 1]);
    }
  }

  /**
   All through a run over UDP no error is pending and a closing client waits for nothing but its BYE,
   exactly when no malformed datagram is dropped in it and the input does not end in an overlong text.
   */
  lemma TidyThroughout(limit: nat, es: seq<Event>)
    requires AllFaultless(es)
    ensures (forall i :: 0 <= i <= |es| ==> Tidy(Run(Init(UDP, limit), es[..i])))
            <==> (forall i :: 0 <= i < |es| ==> !Spoils(Run(Init(UDP, limit), es[..i]), es[i]))
  {
    hide Run, Tidy, Spoils, Settled, Kept;
    var c := Init(UDP, limit);
    if forall i :: 0 <= i < |es| ==> !Spoils(Run(c, es[..i]), es[i]) {
      forall i | 0 <= i <= |es|
        ensures Tidy(Run(c, es[..i]))
      {
        assert forall j :: 0 <= j < i ==> es[..i][..j] == es[..j];
        RunTidy(limit, es[..i]);
      }
    }
    if forall i :: 0 <= i <= |es| ==> Tidy(Run(c, es[..i])) {
      forall i | 0 <= i < |es|
        ensures !Spoils(Run(c, es[..i]), es[i])
      {
        assert es[..i] + [es[i]] == es[..i + 1];
        RunThen(c, es[..i], es[i]);
        RunSettled(UDP, limit, es[..i]);
        KeptRun(UDP, limit, es[..i]);
        TidyExactly(Run(c, es[..i]), es[i]);
      }
    }
  }

  /** A BYE goes out as a BYE exactly when no error is pending; otherwise an ERR takes its place. */
  lemma ByeSent(c: Client)
    ensures var d := ClientSend(c, Body.Bye, NO_FAULTS);
            (d.current.body.Bye? <==> !c.error) && (d.current.body.Err? <==> c.error)
  {
  }

  /** So it is for every way of leaving that an error can still be pending at: signal, failed poll, end of input. */
  lemma ByeOrErr(c: Client, tail: seq<byte>)
    ensures c.state != StateStart ==> (HandleSignal(c, NO_FAULTS).current.body.Bye? <==> !c.error)
    ensures c.state != StateStart ==> (HandleSignal(c, NO_FAULTS).current.body.Err? <==> c.error)
    ensures HandlePollError(c, NO_FAULTS).current.body.Bye? <==> !c.error
    ensures HandlePollError(c, NO_FAULTS).current.body.Err? <==> c.error
    ensures HandleInput(c, Eof(tail), NO_FAULTS).current.body.Bye? <==> !c.error && |tail| <= BYTES_SIZE
    ensures HandleInput(c, Eof(tail), NO_FAULTS).current.body.Err? <==> c.error || |tail| > BYTES_SIZE
  {
    hide ClientSend;
    ByeSent(c);
    ByeSent(c.(state := StateEnd));
    ByeSent(c.(error := c.error || |tail| > BYTES_SIZE));
  }

  /** The socket alone is ready and one malformed datagram is read. */
  function BadRound(): seq<Event> {
    [Enter, Ready(true, false), Socket(CUT_MESSAGE, NO_FAULTS)]
  }

  /** Nothing is outstanding: the datagram is confirmed and answered with an ERR. */
  lemma BadArrival(c: Client)
    requires c.mode == UDP && c.confirmed && !c.error
    ensures var d := HandleSocket(c, Reception.Bad(MESSAGE, 0), NO_FAULTS);
            d.control == c.control && d.state == StateError && !d.confirmed && !d.error && d.mode == UDP
  {
    var b := Transmit(c.(error := true), Payload(0, Confirm), false).(error := false);
    assert Pending(b) && b.mode == UDP && b.control == c.control;
    SendsOk(b, Err(b.name, MalformedText()));
    hide ClientSend, MalformedText, Ascii, Transmit;
  }

  lemma BadRoundSteps(c: Client)
    ensures Run(c, BadRound()) == Step(Step(Step(c, Enter), Ready(true, false)), Socket(CUT_MESSAGE, NO_FAULTS))
  {
    hide Step;
    var poll := [Enter, Ready(true, false)];
    assert [] + [Enter] == [Enter] && [Enter] + [Ready(true, false)] == poll;
    assert poll + [Socket(CUT_MESSAGE, NO_FAULTS)] == BadRound();
    RunThen(c, [], Enter);
    RunThen(c, [Enter], Ready(true, false));
    RunThen(c, poll, Socket(CUT_MESSAGE, NO_FAULTS));
  }

  lemma FirstBadRound(limit: nat)
    ensures var c := Run(Init(UDP, limit), BadRound());
            c.control == Handling(false, false) && c.state == StateError && !c.confirmed && !c.error && c.mode == UDP
  {
    hide Run, Receive, HandleSocket, BadRound;
    var c := Init(UDP, limit);
    CutMessageIsBad();
    BadRoundSteps(c);
    BadArrival(c.(control := Handling(false, false)));
    assert Step(Step(c, Enter), Ready(true, false)) == c.(control := Handling(true, false));
  }

  /** Again a malformed datagram while the ERR is unconfirmed, and then the signal. */
  lemma SecondBadRound(c: Client)
    requires c.control == Handling(false, false) && c.state == StateError && !c.confirmed && !c.error && c.mode == UDP
    ensures var a := Step(Step(Step(c, Finish(NO_FAULTS)), Enter), Ready(true, false));
            var b := Step(a, Socket(CUT_MESSAGE, NO_FAULTS));
            var d := Step(b, Signal(NO_FAULTS));
            d.state == StateEnd && !d.confirmed && d.control != Stopped && d.current.body.Err?
  {
    hide Receive, ClientSend;
    CutMessageIsBad();
    var a := Step(Step(Step(c, Finish(NO_FAULTS)), Enter), Ready(true, false));
    assert a == c.(control := Handling(true, false));
    var b := Step(a, Socket(CUT_MESSAGE, NO_FAULTS));
    assert b == c.(control := Handling(false, false), error := true);
    SendsOk(b, Body.Bye);
  }

  /** Two malformed datagrams and a signal: the client closes, and an ERR is outstanding where its BYE should be. */
  lemma ByeLostToPendingError(limit: nat)
    ensures var es := BadRound() + [Finish(NO_FAULTS)] + [Enter] + [Ready(true, false)]
                      + [Socket(CUT_MESSAGE, NO_FAULTS)] + [Signal(NO_FAULTS)];
            var c := Run(Init(UDP, limit), es);
            AllFaultless(es) && c.state == StateEnd && !c.confirmed && c.control != Stopped && c.current.body.Err?
  {
    var c := Init(UDP, limit);
    var a1 := BadRound() + [Finish(NO_FAULTS)];
    var a2 := a1 + [Enter];
    var a3 := a2 + [Ready(true, false)];
    var a4 := a3 + [Socket(CUT_MESSAGE, NO_FAULTS)];
    assert AllFaultless(a4 + [Signal(NO_FAULTS)]);
    hide Run, Step, BadRound;
    FirstBadRound(limit);
    RunThen(c, BadRound(), Finish(NO_FAULTS));
    RunThen(c, a1, Enter);
    RunThen(c, a2, Ready(true, false));
    RunThen(c, a3, Socket(CUT_MESSAGE, NO_FAULTS));
    RunThen(c, a4, Signal(NO_FAULTS));
    SecondBadRound(Run(c, BadRound()));
  }

  /** 1502 bytes and the end of input, at once: again an ERR is outstanding in End. */
  lemma ByeLostToOverlongEnd(limit: nat)
    ensures var end := Eof(seq(1502, _ => 'a' as int));
            var c := Run(Init(UDP, limit), [Enter] + [Ready(false, true)] + [Stdin(end, NO_FAULTS)]);
            c.state == StateEnd && !c.confirmed && c.current.body.Err?
  {
    hide ClientSend, Run, Understand;
    var c := Init(UDP, limit);
    var end := Eof(seq(1502, _ => 'a' as int));
    RunNone(c);
    RunThen(c, [], Enter);
    assert [] + [Enter] == [Enter];
    RunThen(c, [Enter], Ready(false, true));
    RunThen(c, [Enter] + [Ready(false, true)], Stdin(end, NO_FAULTS));
    var a := c.(control := Handling(false, true));
    assert Step(Step(c, Enter), Ready(false, true)) == a;
    SendsOk(a.(control := Handling(false, false), error := true), Body.Bye);
  }

  // ---------------------------------------------------------------- a malformed message over TCP

  function BodyOf(e: Entry): seq<Body> {
    if e.Sent? then [e.p.body] else []
  }

  /** The payloads handed to the socket, in order. */
  function SentBodies(es: seq<Entry>): seq<Body> {
    if es == [] then [] else SentBodies(es[..|es| - 1]) + BodyOf(es[|es| - 1])
  }

  /** From `c` to `d` exactly these payloads are handed to the socket. */
  predicate Says(c: Client, d: Client, bodies: seq<Body>) {
    c.log <= d.log && SentBodies(d.log[|c.log|..]) == bodies
  }

  lemma {:induction false} SentBodiesConcat(a: seq<Entry>, b: seq<Entry>)
    ensures SentBodies(a + b) == SentBodies(a) + SentBodies(b)
  {
    hide BodyOf, SentBodies;
    if b == [] {
      assert a + b == a;
      NothingSent();
    } else {
      var init, e := b[..|b| - 1], b[|b| - 1];
      SentBodiesConcat(a, init);
      assert a + b == (a + init) + [e] && b == init + [e];
      SentBodiesLast(a + init, e);
      SentBodiesLast(init, e);
      Associates(SentBodies(a), SentBodies(init), BodyOf(e));
    }
  }

  lemma NothingSent()
    ensures SentBodies([]) == []
  {
  }

  lemma SentBodiesLast(es: seq<Entry>, e: Entry)
    ensures SentBodies(es + [e]) == SentBodies(es) + BodyOf(e)
  {
    hide BodyOf;
    assert (es + [e])[..|es|] == es;
  }

  lemma Associates(x: seq<Body>, y: seq<Body>, z: seq<Body>)
    ensures (x + y) + z == x + (y + z)
  {
  }

  lemma SaysThen(c: Client, d: Client, e: Client, xs: seq<Body>, ys: seq<Body>)
    requires Says(c, d, xs) && Says(d, e, ys)
    ensures Says(c, e, xs + ys)
  {
    hide SentBodies;
    SentBodiesConcat(d.log[|c.log|..], e.log[|d.log|..]);
    assert e.log[|c.log|..] == d.log[|c.log|..] + e.log[|d.log|..];
  }

  lemma SaysNothing(c: Client, d: Client)
    requires d.log == c.log
    ensures Says(c, d, [])
  {
  }

  lemma SaysThree(c: Client, d: Client, x: Entry, y: Entry, z: Entry)
    requires d.log == c.log + [x, y, z] || d.log == c.log + [x, y]
    ensures Says(c, d, if |d.log| == |c.log| + 2 then BodyOf(x) + BodyOf(y) else BodyOf(x) + BodyOf(y) + BodyOf(z))
  {
    assert SentBodies([]) == [];
    assert [x][..0] == [] && [x, y][..1] == [x] && [x, y, z][..2] == [x, y];
    assert SentBodies([x]) == BodyOf(x);
    assert SentBodies([x, y]) == BodyOf(x) + BodyOf(y);
    assert d.log[|c.log|..] == if |d.log| == |c.log| + 2 then [x, y] else [x, y, z];
  }

  /** Nothing keeps the payload itself from going out. */
  predicate Whole(c: Client, body: Body) {
    !c.error && Tcp.Printable(body)
  }

  /** What client_send puts into the trace over TCP. */
  lemma SendLog(c: Client, body: Body)
    requires c.mode == TCP && c.confirmed && !body.Confirm?
    ensures var d := ClientSend(c, body, NO_FAULTS);
            var p := Payload(c.created % 0x1_0000, body);
            var q := Payload((c.created + 1) % 0x1_0000, Err(c.name, SendFailedText()));
            && d.log == (if Whole(c, body) then c.log + [Issued(p), Sent(p, Tcp.Encode(body))]
                         else if c.name == [] then c.log + [Issued(p), Issued(q)]
                         else c.log + [Issued(p), Issued(q), Sent(q, Tcp.Encode(q.body))])
            && d.confirmed && d.mode == TCP && d.name == c.name && d.control == c.control
            && (d.error <==> !Whole(c, body) && c.name == []) && (Whole(c, body) ==> d.state == c.state)
  {
    hide Tcp.Encode, SendFailedText;
    TextsAreNotEmpty();
  }

  lemma TextsAreNotEmpty()
    ensures MalformedText() != [] && SendFailedText() != []
  {
  }

  lemma SendSays(c: Client, body: Body)
    requires c.mode == TCP && c.confirmed && !body.Confirm?
    ensures var d := ClientSend(c, body, NO_FAULTS);
            && Says(c, d, if Whole(c, body) then [body]
                          else if c.name == [] then [] else [Err(c.name, SendFailedText())])
            && d.confirmed && d.mode == TCP && d.name == c.name && d.control == c.control
            && (d.error <==> !Whole(c, body) && c.name == []) && (Whole(c, body) ==> d.state == c.state)
  {
    hide ClientSend, Tcp.Encode, SendFailedText, Says, Whole;
    SendLog(c, body);
    var p := Payload(c.created % 0x1_0000, body);
    var q := Payload((c.created + 1) % 0x1_0000, Err(c.name, SendFailedText()));
    var y := if Whole(c, body) then Sent(p, Tcp.Encode(body)) else Issued(q);
    var z := Sent(q, Tcp.Encode(q.body));
    assert BodyOf(Issued(p)) + BodyOf(y) == (if Whole(c, body) then [body] else []);
    assert BodyOf(Issued(p)) + BodyOf(Issued(q)) + BodyOf(z) == [Err(c.name, SendFailedText())];
    SaysThree(c, ClientSend(c, body, NO_FAULTS), Issued(p), y, z);
  }

  /** The client has answered a malformed message and has not left its loop iteration. */
  predicate Complained(c: Client) {
    c.mode == TCP && c.confirmed && c.state == StateError && (c.error <==> c.name == [])
  }

  lemma AnswerSays(c: Client, junk: MessageId)
    requires c.mode == TCP && c.confirmed && !c.error
    ensures var d := HandleSocket(c, Reception.Bad(0, junk), NO_FAULTS);
            && Complained(d) && d.name == c.name && d.control == c.control
            && Says(c, d, if c.name == [] then [] else [Err(c.name, MalformedText())])
  {
    hide ClientSend, MalformedText, SendFailedText, Ascii, Says;
    TextsAreNotEmpty();
    SendSays(c, Err(c.name, MalformedText()));
    hide Says;
    var d := ClientSend(c, Err(c.name, MalformedText()), NO_FAULTS);
    SaysFrame(c, d, HandleSocket(c, Reception.Bad(0, junk), NO_FAULTS));
  }

  lemma SaysFrame(c: Client, d: Client, e: Client)
    requires e.log == d.log
    ensures forall bodies :: Says(c, d, bodies) == Says(c, e, bodies)
  {
  }

  /** The rest of the iteration: at most one line or end of input is handled, and then the loop's last test. */
  function Rest(c: Client, last: Option<Input>): Client {
    HandleFinish(if last.Some? then HandleInput(c, last.value, NO_FAULTS) else c, NO_FAULTS)
  }

  /** What is said in it, by the name set when the malformed message came. */
  function LastWords(name: seq<byte>, last: Option<Input>): seq<Body> {
    match last
    case None => if name != [] then [Body.Bye] else []
    case Some(Line(text)) => if name != [] || text != [] then [Body.Bye] else []
    case Some(Eof(tail)) =>
      if name == [] then [] else if |tail| <= BYTES_SIZE then [Body.Bye] else [Err(name, SendFailedText())]
  }

  lemma FinishSays(c: Client)
    requires c.mode == TCP && c.confirmed && (c.state == StateError || c.state == StateEnd)
    requires c.state == StateError && c.error ==> c.name == []
    ensures var d := HandleFinish(c, NO_FAULTS);
            && d.state == StateEnd && d.error == c.error
            && Says(c, d, if c.state == StateError && !c.error then [Body.Bye] else [])
  {
    hide ClientSend, Says;
    SaysNothing(c, c);
    SendSays(c, Body.Bye);
    SaysFrame(c, ClientSend(c, Body.Bye, NO_FAULTS), ClientSend(c, Body.Bye, NO_FAULTS).(state := StateEnd));
  }

  /** A line: it is obeyed only with a name, and in state Error only /exit says anything; an error is cleared. */
  lemma LineSays(c: Client, text: seq<byte>)
    requires Complained(c)
    ensures var d := HandleInput(c, Line(text), NO_FAULTS);
            && d.mode == TCP && d.confirmed
            && (d.error <==> c.error && text == []) && (d.error ==> d.name == [])
            && ((d.state == StateError && Says(c, d, []))
                || (d.state == StateEnd && !d.error && Says(c, d, [Body.Bye])))
  {
    hide ClientSend, Understand, Says;
    var d := HandleInput(c, Line(text), NO_FAULTS);
    SendSays(c.(state := StateEnd), Body.Bye);
    SaysFrom(c.(state := StateEnd), c);
    if d.log == c.log {
      SaysNothing(c, d);
    }
  }

  lemma SaysFrom(b: Client, c: Client)
    requires b.log == c.log
    ensures forall d, bodies :: Says(b, d, bodies) == Says(c, d, bodies)
  {
  }

  lemma EofSays(c: Client, tail: seq<byte>)
    requires Complained(c)
    ensures var d := HandleInput(c, Eof(tail), NO_FAULTS);
            && d.mode == TCP && d.confirmed && d.state == StateEnd && d.error == c.error
            && Says(c, d, LastWords(c.name, Some(Eof(tail))))
  {
    hide ClientSend, Says, SendFailedText;
    var b := c.(error := c.error || |tail| > BYTES_SIZE);
    SendSays(b, Body.Bye);
    SaysFrom(b, c);
    SaysFrame(c, ClientSend(b, Body.Bye, NO_FAULTS), HandleInput(c, Eof(tail), NO_FAULTS));
  }

  lemma RestSays(c: Client, last: Option<Input>)
    requires Complained(c)
    ensures var d := Rest(c, last);
            && d.state == StateEnd && Says(c, d, LastWords(c.name, last))
            && (d.error <==> c.name == [] && LastWords(c.name, last) == [])
  {
    hide ClientSend, Says, HandleInput, HandleFinish, SendFailedText;
    assert forall xs: seq<Body> :: xs + [] == xs && [] + xs == xs;
    var b := if last.Some? then HandleInput(c, last.value, NO_FAULTS) else c;
    match last {
      case None => SaysNothing(c, c);
      case Some(Line(text)) => LineSays(c, text);
      case Some(Eof(tail)) => EofSays(c, tail);
    }
    FinishSays(b);
    var d := HandleFinish(b, NO_FAULTS);
    SaysJoined(c, b, d);
  }

  lemma SaysJoined(c: Client, d: Client, e: Client)
    ensures forall xs, ys :: Says(c, d, xs) && Says(d, e, ys) ==> Says(c, e, xs + ys)
  {
    forall xs, ys | Says(c, d, xs) && Says(d, e, ys)
      ensures Says(c, e, xs + ys)
    {
      SaysThen(c, d, e, xs, ys);
    }
  }

  /** The socket first, then perhaps stdin, then the end of the iteration, with no signal in between. */
  function Iteration(packet: Packet, last: Option<Input>): seq<Event> {
    [Socket(packet, NO_FAULTS)] + (if last.Some? then [Stdin(last.value, NO_FAULTS)] else []) + [Finish(NO_FAULTS)]
  }

  lemma IterationSteps(c: Client, packet: Packet, last: Option<Input>)
    requires c.mode == TCP && c.control == Handling(true, last.Some?) && Enabled(c, Socket(packet, NO_FAULTS))
    ensures var b := HandleSocket(c.(control := Handling(false, last.Some?)), Receive(TCP, packet), NO_FAULTS);
            b.control == Handling(false, last.Some?) ==>
              Run(c, Iteration(packet, last)) == Rest(b.(control := Handling(false, false)), last).(control := Checking)
  {
    hide HandleSocket, HandleInput, HandleFinish, Receive, Run;
    var e1, e3 := Socket(packet, NO_FAULTS), Finish(NO_FAULTS);
    RunNone(c);
    RunThen(c, [], e1);
    assert [] + [e1] == [e1];
    if last.Some? {
      var e2 := Stdin(last.value, NO_FAULTS);
      assert Iteration(packet, last) == [e1] + [e2] + [e3];
      RunThen(c, [e1], e2);
      RunThen(c, [e1] + [e2], e3);
      InputMode(Run(c, [e1]).(control := Handling(false, false)), last.value, NO_FAULTS);
    } else {
      assert Iteration(packet, last) == [e1] + [e3];
      RunThen(c, [e1], e3);
    }
  }

  lemma TcpBad(packet: Packet)
    requires Receive(TCP, packet).Bad?
    ensures Receive(TCP, packet).code == 0
  {
    hide Tcp.Decode;
  }

  /**
   A malformed message over TCP and the rest of its iteration.  The ERR goes out exactly when a name is
   set.  The BYE goes out exactly when a name is set, or the line then handled is not empty and so
   clears the error; at an end of input the name must be set and the last bytes must fit.
   */
  lemma MalformedOverTcp(c: Client, packet: Packet, last: Option<Input>)
    requires c.mode == TCP && c.confirmed && !c.error && c.control == Handling(true, last.Some?)
    requires Enabled(c, Socket(packet, NO_FAULTS)) && Receive(TCP, packet).Bad?
    ensures var d := Run(c, Iteration(packet, last));
            && d.control == Checking && d.state == StateEnd
            && Says(c, d, (if c.name == [] then [] else [Err(c.name, MalformedText())]) + LastWords(c.name, last))
            && (d.error <==> c.name == [] && LastWords(c.name, last) == [])
  {
    hide HandleSocket, HandleInput, HandleFinish, Receive, Run, Says, Rest, LastWords, MalformedText, Iteration;
    TcpBad(packet);
    var a := c.(control := Handling(false, last.Some?));
    AnswerSays(a, Receive(TCP, packet).id);
    var b := HandleSocket(a, Receive(TCP, packet), NO_FAULTS);
    var b' := b.(control := Handling(false, false));
    RestSays(b', last);
    IterationSteps(c, packet, last);
    SaysFrame(c, b, b');
    SaysFrom(a, c);
    var err := if c.name == [] then [] else [Err(c.name, MalformedText())];
    SaysThen(c, b', Rest(b', last), err, LastWords(c.name, last));
    SaysFrame(c, Rest(b', last), Run(c, Iteration(packet, last)));
  }

  const EMPTY_MESSAGE := Arrived([], 0)

  lemma FirstPoll(limit: nat, stdin: bool)
    ensures Run(Init(TCP, limit), [Enter] + [Ready(true, stdin)]) == Init(TCP, limit).(control := Handling(true, stdin))
  {
    var c := Init(TCP, limit);
    RunNone(c);
    RunThen(c, [], Enter);
    assert [] + [Enter] == [Enter];
    RunThen(c, [Enter], Ready(true, stdin));
  }

  /** An empty message at once: the client leaves without a word. */
  lemma SilentLeave(limit: nat)
    ensures var es := [Enter] + [Ready(true, false)] + Iteration(EMPTY_MESSAGE, None) + [Enter];
            var c := Run(Init(TCP, limit), es);
            c.control == Stopped && c.error && Says(Init(TCP, limit), c, [])
  {
    hide Run, Says, Iteration, Receive;
    var c := Init(TCP, limit);
    var a := c.(control := Handling(true, false));
    EmptyIsBad();
    FirstPoll(limit, false);
    MalformedOverTcp(a, EMPTY_MESSAGE, None);
    RunConcat(c, [Enter] + [Ready(true, false)], Iteration(EMPTY_MESSAGE, None));
    RunThen(c, [Enter] + [Ready(true, false)] + Iteration(EMPTY_MESSAGE, None), Enter);
    var d := Run(a, Iteration(EMPTY_MESSAGE, None));
    TcpConfirmed(limit, [Enter] + [Ready(true, false)] + Iteration(EMPTY_MESSAGE, None));
    SaysFrom(a, c);
    SaysFrame(c, d, Step(d, Enter));
  }

  lemma TcpConfirmed(limit: nat, es: seq<Event>)
    ensures Run(Init(TCP, limit), es).confirmed
  {
    hide Run, Kept;
    KeptRun(TCP, limit, es);
  }

  /** The same, but with a line typed in that iteration: the BYE goes out although no name is set. */
  lemma NamelessBye(limit: nat, text: seq<byte>)
    requires text != []
    ensures var es := [Enter] + [Ready(true, true)] + Iteration(EMPTY_MESSAGE, Some(Line(text)));
            var c := Run(Init(TCP, limit), es);
            c.state == StateEnd && !c.error && Says(Init(TCP, limit), c, [Body.Bye])
  {
    hide Run, Says, Iteration, Receive;
    var c := Init(TCP, limit);
    var a := c.(control := Handling(true, true));
    EmptyIsBad();
    FirstPoll(limit, true);
    MalformedOverTcp(a, EMPTY_MESSAGE, Some(Line(text)));
    RunConcat(c, [Enter] + [Ready(true, true)], Iteration(EMPTY_MESSAGE, Some(Line(text))));
    SaysFrom(a, c);
    assert [] + [Body.Bye] == [Body.Bye];
  }

  lemma EmptyIsBad()
    ensures Receive(TCP, Arrived([], 0)) == Reception.Bad(0, 0)
  {
  }

  // ---------------------------------------------------------------- a signal in state Start

  /** In End with nothing outstanding and no error: a signal in state Start leads here. */
  predicate Hushed(c: Client) {
    c.state == StateEnd && c.confirmed && !c.error
  }

  /** A payload is acted on: over UDP its ID must be new. */
  predicate Takes(c: Client, e: Event) {
    && Enabled(c, e) && e.Socket?
    && var rx := Receive(c.mode, e.packet);
       rx.Got? && !rx.p.body.Confirm? && (c.mode == UDP ==> rx.p.id !in c.received)
  }

  /** The events that make a hushed client issue a BYE all the same. */
  predicate AsksBye(c: Client, e: Event) {
    Enabled(c, e)
    && match e
       case PollError(_) => true
       case Signal(_) => true
       case Socket(packet, _) =>
         Takes(c, e) && (Receive(c.mode, packet).p.body.Err? || Receive(c.mode, packet).p.body.Bye?)
       case Stdin(Eof(tail), _) => |tail| <= BYTES_SIZE
       case Stdin(Line(text), _) => Understand(text) == Some(Commands.Exit)
       case _ => false
  }

  /** The events that make it issue an ERR. */
  predicate AsksErr(c: Client, e: Event) {
    Enabled(c, e)
    && match e
       case Socket(packet, _) =>
         || Receive(c.mode, packet).Bad?
         || (Takes(c, e) && (Receive(c.mode, packet).p.body.Auth? || Receive(c.mode, packet).p.body.Join?))
       case Stdin(Eof(tail), _) => |tail| > BYTES_SIZE
       case _ => false
  }

  lemma ErrSent(c: Client, text: seq<byte>)
    ensures var d := ClientSend(c, Err(c.name, text), NO_FAULTS); d.current.body.Err? && d.created > c.created
  {
  }

  lemma ByeIssued(c: Client)
    requires !c.error
    ensures var d := ClientSend(c, Body.Bye, NO_FAULTS); d.current.body.Bye? && d.created == c.created + 1
  {
  }

  lemma HushedProcess(c: Client, p: Payload)
    requires Hushed(c) && !p.body.Confirm?
    ensures var d := Process(c, p, NO_FAULTS);
            && (p.body.Err? || p.body.Bye? ==> d.current.body.Bye? && d.created == c.created + 1)
            && (p.body.Auth? || p.body.Join? ==> d.current.body.Err? && d.created > c.created)
            && (p.body.Reply? || p.body.Message? ==> d.current == c.current && d.created == c.created && Hushed(d))
  {
    hide ClientSend, MalformedText;
    var d := c.(received := c.received + {p.id}, log := c.log + [Processed(p, c.state)]);
    ByeIssued(d);
    ErrSent(d, MalformedText());
  }

  lemma HushedSocket(c: Client, rx: Reception)
    requires Hushed(c)
    ensures var d := HandleSocket(c, rx, NO_FAULTS);
            var takes := rx.Got? && !rx.p.body.Confirm? && (c.mode == UDP ==> rx.p.id !in c.received);
            var bye := takes && (rx.p.body.Err? || rx.p.body.Bye?);
            var err := rx.Bad? || (takes && (rx.p.body.Auth? || rx.p.body.Join?));
            && (bye ==> d.current.body.Bye? && d.created == c.created + 1)
            && (err ==> d.current.body.Err? && d.created > c.created)
            && (!bye && !err ==> d.current == c.current && d.created == c.created && Hushed(d))
  {
    hide ClientSend, MalformedText, Process, Udp.Datagram, TypeCode;
    var id := if rx.Got? then rx.p.id else if rx.Bad? then rx.id else 0;
    var b := Transmit(c, Payload(id, Confirm), false);
    var b' := Transmit(c.(error := true), Payload(id, Confirm), false).(error := false);
    ErrSent(c, MalformedText());
    ErrSent(b', MalformedText());
    if rx.Got? && !rx.p.body.Confirm? {
      HushedProcess(b, rx.p);
      NotConfirmCode(rx.p.body);
    }
  }

  lemma NotConfirmCode(b: Body)
    ensures TypeCode(b) == CONFIRM <==> b.Confirm?
  {
  }

  lemma HushedInput(c: Client, input: Input)
    requires Hushed(c)
    ensures var d := HandleInput(c, input, NO_FAULTS);
            && (input.Eof? && |input.tail| <= BYTES_SIZE ==> d.current.body.Bye? && d.created == c.created + 1)
            && (input.Eof? && |input.tail| > BYTES_SIZE ==> d.current.body.Err? && d.created > c.created)
            && (input.Line? ==>
                  if Understand(input.text) == Some(Commands.Exit) then
                    d.current.body.Bye? && d.created == c.created + 1
                  else d.current == c.current && d.created == c.created && Hushed(d))
  {
    hide ClientSend, Understand;
    ByeIssued(c);
    BlankLine();
    ByeSent(c.(error := true));
    SendCounts(c.(error := true), Body.Bye);
  }

  lemma BlankLine()
    ensures Understand([]) == None
  {
  }

  lemma SendCounts(c: Client, body: Body)
    ensures ClientSend(c, body, NO_FAULTS).created > c.created
  {
    hide ClientSend;
    var _ := SendShape(c, body, NO_FAULTS);
  }

  /**
   A hushed client stays hushed, issuing nothing, until an event comes that asks for a BYE or an ERR,
   and then issues that.
   */
  lemma HushedUntilAsked(c: Client, e: Event)
    requires Hushed(c) && Timer(c) && Faultless(e)
    ensures var d := Step(c, e);
            && (AsksBye(c, e) ==> d.current.body.Bye? && d.created == c.created + 1)
            && (AsksErr(c, e) ==> d.current.body.Err? && d.created > c.created)
            && (!AsksBye(c, e) && !AsksErr(c, e) ==> d.current == c.current && d.created == c.created && Hushed(d))
  {
    hide ClientSend, HandleSocket, HandleInput, Understand, Receive;
    ByeIssued(c);
    if Enabled(c, e) {
      match e
      case Socket(packet, _) => HushedSocket(c.(control := Handling(false, c.control.stdin)), Receive(c.mode, packet));
      case Stdin(input, _) => HushedInput(c.(control := Handling(c.control.socket, false)), input);
      case _ =>
    }
  }

  /** In state Start a signal, wherever it comes, issues nothing and hushes the client. */
  lemma SignalInStart(c: Client)
    requires Settled(c) && c.state == StateStart && c.control != Stopped
    ensures Step(c, Signal(NO_FAULTS)) == c.(state := StateEnd) && Hushed(Step(c, Signal(NO_FAULTS)))
  {
  }

  /** The signal that interrupts the first poll: a client that never authenticated waits for its BYE. */
  lemma ByeFromStart(limit: nat)
    ensures var c := Run(Init(UDP, limit), [Enter] + [Signal(NO_FAULTS)] + [PollError(NO_FAULTS)]);
            c.state == StateEnd && c.current.body.Bye? && !c.confirmed && c.control == Checking
  {
    hide ClientSend, Run;
    var c := Init(UDP, limit);
    RunNone(c);
    RunThen(c, [], Enter);
    assert [] + [Enter] == [Enter];
    RunThen(c, [Enter], Signal(NO_FAULTS));
    RunThen(c, [Enter] + [Signal(NO_FAULTS)], PollError(NO_FAULTS));
    var b := Step(Step(c, Enter), Signal(NO_FAULTS));
    assert b == c.(state := StateEnd, control := Waiting(true, false));
    SendsOk(b, Body.Bye);
  }
}
