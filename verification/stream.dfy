/** Over TCP: what is handed to the socket is the payloads issued, whole, once each and in order. */
module Stream {
  import opened Window
  import opened Payloads
  import opened Protocol
  import opened Phases
  import opened StopAndWait
  import Commands
  import Tcp

  /** Bytes are only sent right after their payload was issued, and they are its encoding. */
  predicate Paired(log: seq<Entry>) {
    forall i :: 0 <= i < |log| && log[i].Sent? ==>
      && i > 0 && log[i - 1] == Issued(log[i].p)
      && Tcp.Printable(log[i].p.body) && log[i].bytes == Tcp.Encode(log[i].p.body)
  }

  /** A chat payload issued is well-formed, and its bytes are sent at once. */
  predicate Followed(log: seq<Entry>) {
    forall i :: 0 <= i < |log| && log[i].Issued? && IsChat(log[i].p.body) ==>
      WellFormed(log[i].p.body) && i + 1 < |log| && log[i + 1].Sent? && log[i + 1].p == log[i].p
  }

  /** The payloads handed to the socket, in order. */
  function SentOf(log: seq<Entry>): seq<Payload> {
    if log == [] then []
    else
      var e := log[|log| - 1];
      SentOf(log[..|log| - 1]) + if e.Sent? then [e.p] else []
  }

  lemma PairedAppend(log: seq<Entry>, es: seq<Entry>)
    requires Paired(log) && Paired(es)
    ensures Paired(log + es)
  {
    hide Tcp.Encode, Tcp.Printable;
    var all := log + es;
    forall i | 0 <= i < |all| && all[i].Sent?
      ensures i > 0 && all[i - 1] == Issued(all[i].p)
      ensures Tcp.Printable(all[i].p.body) && all[i].bytes == Tcp.Encode(all[i].p.body)
    {
      if i >= |log| {
        assert all[i] == es[i - |log|] && all[i - 1] == es[i - 1 - |log|];
      }
    }
  }

  lemma FollowedAppend(log: seq<Entry>, es: seq<Entry>)
    requires Followed(log) && Followed(es)
    ensures Followed(log + es)
  {
    hide WellFormed, IsChat;
    var all := log + es;
    forall i | 0 <= i < |all| && all[i].Issued? && IsChat(all[i].p.body)
      ensures WellFormed(all[i].p.body) && i + 1 < |all| && all[i + 1].Sent? && all[i + 1].p == all[i].p
    {
      if i >= |log| {
        assert all[i] == es[i - |log|];
      }
    }
  }

  // ---------------------------------------------------------------- sending

  /** Issuing a payload and handing it to the TCP socket. */
  lemma IssueAndSend(c: Client, body: Body, fault: bool) returns (es: seq<Entry>)
    requires c.mode == TCP
    ensures var a := Issue(c, body);
            Transmit(a, a.current, fault).log == c.log + es
    ensures Paired(es)
            && (!IsChat(body) || (!c.error && !fault && Tcp.Printable(body) && WellFormed(body)) ==> Followed(es))
  {
    hide Tcp.Encode, Tcp.Printable, WellFormed;
    var p := Payload(c.created % 0x1_0000, body);
    es := if body.Confirm? || c.error || fault || !Tcp.Printable(body) then [Issued(p)]
          else [Issued(p), Sent(p, Tcp.Encode(body))];
    assert c.log + [Issued(p)] + [Sent(p, Tcp.Encode(body))] == c.log + [Issued(p), Sent(p, Tcp.Encode(body))];
  }

  lemma SendPairs(c: Client, body: Body, f: Faults)
    requires c.mode == TCP && Paired(c.log)
    ensures Paired(ClientSend(c, body, f).log)
    ensures Followed(c.log) && (!IsChat(body) || (!c.error && !f.first && Tcp.Printable(body) && WellFormed(body))) ==>
              Followed(ClientSend(c, body, f).log)
  {
    var es := IssueAndSend(c, body, f.first);
    var a := Issue(c, body);
    var b := Transmit(a, a.current, f.first);
    var fs := IssueAndSend(b.(error := false), Err(c.name, SendFailedText()), f.second);
    hide Transmit, Issue, Paired, Followed, Tcp.Printable, WellFormed, SendFailedText;
    PairedAppend(c.log, es);
    PairedAppend(c.log + es, fs);
    if Followed(c.log) && Followed(es) {
      FollowedAppend(c.log, es);
      if Followed(fs) {
        FollowedAppend(c.log + es, fs);
      }
    }
  }

  /** What every TCP run keeps; the second half needs sends that do not fail. */
  predicate Ordered(c: Client, faultless: bool) {
    c.mode == TCP && Paired(c.log) && (faultless ==> Followed(c.log))
  }

  lemma OrderedSend(c: Client, body: Body, f: Faults, faultless: bool)
    requires Ordered(c, faultless) && !IsChat(body)
    ensures Ordered(ClientSend(c, body, f), faultless)
  {
    hide Paired, Followed, Tcp.Printable, WellFormed, ClientSend;
    SendPairs(c, body, f);
    SendAny();
  }

  lemma OrderedChat(c: Client, body: Body, f: Faults, faultless: bool)
    requires Ordered(c, faultless) && !c.error && Tcp.Printable(body) && WellFormed(body)
             && (faultless ==> f == NO_FAULTS)
    ensures Ordered(ClientSend(c, body, f), faultless)
  {
    hide Paired, Followed, Tcp.Printable, WellFormed, ClientSend;
    SendPairs(c, body, f);
    SendAny();
  }

  lemma WellFormedPrints(body: Body)
    requires WellFormed(body) && !body.Confirm?
    ensures Tcp.Printable(body)
  {
  }

  // ---------------------------------------------------------------- the handlers

  lemma OrderedNote(c: Client, p: Payload, at: State, faultless: bool)
    requires Ordered(c, faultless)
    ensures Ordered(c.(log := c.log + [Processed(p, at)]), faultless)
  {
    PairedAppend(c.log, [Processed(p, at)]);
    if faultless {
      FollowedAppend(c.log, [Processed(p, at)]);
    }
  }

  lemma OrderedProcess(c: Client, p: Payload, f: Faults, faultless: bool)
    requires Ordered(c, faultless)
    ensures Ordered(Process(c, p, f), faultless)
  {
    hide Paired, Followed, ClientSend, MalformedText, Ascii;
    OrderedNote(c, p, c.state, faultless);
    var d := c.(received := c.received + {p.id}, log := c.log + [Processed(p, c.state)]);
    OrderedSend(d, Body.Bye, f, faultless);
    OrderedSend(d, Err(d.name, MalformedText()), f, faultless);
  }

  lemma OrderedSocket(c: Client, rx: Reception, f: Faults, faultless: bool)
    requires Ordered(c, faultless)
    ensures Ordered(HandleSocket(c, rx, f), faultless)
  {
    hide Paired, Followed, ClientSend, MalformedText, Ascii, Process, TypeCode;
    OrderedSend(c.(error := false), Err(c.name, MalformedText()), f, faultless);
    if rx.Got? {
      OrderedProcess(c, rx.p, f, faultless);
    }
  }

  lemma OrderedObey(c: Client, cmd: Commands.Command, f: Faults, faultless: bool)
    requires Ordered(c, faultless) && Named(c) && !c.error && Commands.ValidCommand(cmd)
             && (faultless ==> f == NO_FAULTS)
    ensures Ordered(Obey(c, cmd, f), faultless)
  {
    hide Paired, Followed, ClientSend;
    match cmd
    case Say(text) =>
      if c.state == StateOpen {
        WellFormedPrints(Message(c.name, text));
        OrderedChat(c, Message(c.name, text), f, faultless);
      }
    case Authenticate(u, s, d) =>
      WellFormedPrints(Auth(u, d, s));
      OrderedChat(c.(name := d), Auth(u, d, s), f, faultless);
    case JoinChannel(ch) =>
      if c.state == StateOpen {
        WellFormedPrints(Join(ch, c.name));
        OrderedChat(c, Join(ch, c.name), f, faultless);
      }
    case Exit => OrderedSend(c.(state := StateEnd), Body.Bye, f, faultless);
    case _ =>
  }

  lemma OrderedInput(c: Client, input: Input, f: Faults, faultless: bool)
    requires Ordered(c, faultless) && Named(c) && (faultless ==> f == NO_FAULTS)
    ensures Ordered(HandleInput(c, input, f), faultless)
  {
    hide Paired, Followed, ClientSend, Obey, Understand, Commands.ValidCommand;
    match input
    case Eof(tail) => OrderedSend(c.(error := c.error || |tail| > BYTES_SIZE), Body.Bye, f, faultless);
    case Line(text) =>
      if Understand(text).Some? && !c.error {
        UnderstandExact(text, Understand(text).value);
        OrderedObey(c, Understand(text).value, f, faultless);
      }
  }

  lemma OrderedStep(c: Client, e: Event, faultless: bool)
    requires Ordered(c, faultless) && Named(c) && Timer(c) && (faultless ==> Faultless(e))
    ensures Ordered(Step(c, e), faultless)
  {
    hide Paired, Followed, ClientSend, HandleSocket, HandleInput, Receive;
    if Enabled(c, e) {
      match e
      case Signal(f) => OrderedSend(c, Body.Bye, f, faultless);
      case PollError(f) => OrderedSend(c.(state := StateEnd), Body.Bye, f, faultless);
      case Finish(f) => OrderedSend(c, Body.Bye, f, faultless);
      case Socket(packet, f) =>
        OrderedSocket(c.(control := Handling(false, c.control.stdin)), Receive(c.mode, packet), f, faultless);
      case Stdin(input, f) => OrderedInput(c.(control := Handling(c.control.socket, false)), input, f, faultless);
      case Expire(_) =>
      case Ready(_, _) =>
      case Enter =>
    }
  }

  lemma {:induction false} OrderedRun(limit: nat, es: seq<Event>, faultless: bool)
    requires faultless ==> AllFaultless(es)
    ensures Ordered(Run(Init(TCP, limit), es), faultless)
  {
    if es != [] {
      hide Step, Ordered, Timer, Init;
      var init := es[..|es| - 1];
      OrderedRun(limit, init, faultless);
      KeptRun(TCP, limit, init);
      OrderedStep(Run(Init(TCP, limit), init), es[|es| - 1], faultless);
    }
  }

  // ---------------------------------------------------------------- the statements

  /** The chat payload whose bytes are still to come. */
  function Due(log: seq<Entry>): seq<Payload> {
    if log != [] && log[|log| - 1].Issued? && IsChat(log[|log| - 1].p.body) then [log[|log| - 1].p] else []
  }

  lemma LastEntry(log: seq<Entry>, e: Entry)
    ensures Issues(log + [e]) == Issues(log) + if e.Issued? then [e.p] else []
    ensures SentOf(log + [e]) == SentOf(log) + if e.Sent? then [e.p] else []
  {
    assert (log + [e])[..|log|] == log;
  }

  /** Up to that one, the chat payloads issued and sent are the same. */
  lemma {:induction false} IssuedIsSent(log: seq<Entry>)
    requires Paired(log)
    requires forall i :: 0 <= i < |log| - 1 && log[i].Issued? && IsChat(log[i].p.body) ==>
               log[i + 1].Sent? && log[i + 1].p == log[i].p
    ensures Chats(Issues(log)) == Chats(SentOf(log)) + Due(log)
  {
    hide Tcp.Encode, Tcp.Printable, IsChat, Chats, Issues, SentOf;
    if log == [] {
      NothingYet();
    } else {
      var init, e := log[..|log| - 1], log[|log| - 1];
      assert log == init + [e];
      LastEntry(init, e);
      IssuedIsSent(init);
      assert init != [] ==> init[|init| - 1] == log[|log| - 2];
      match e
      case Issued(p) =>
        assert Due(init) == [];
        ChatsOne(Issues(init), p);
        assert SentOf(log) == SentOf(init);
      case Sent(p, _) =>
        assert Due(init) == if IsChat(p.body) then [p] else [];
        ChatsOne(SentOf(init), p);
        assert Issues(log) == Issues(init);
      case Processed(_, _) =>
        assert Due(init) == [];
        assert Issues(log) == Issues(init) && SentOf(log) == SentOf(init);
    }
  }

  lemma NothingYet()
    ensures Issues([]) == [] && SentOf([]) == [] && Chats([]) == []
  {
  }

  lemma ChatsOne(ps: seq<Payload>, p: Payload)
    ensures Chats(ps + [p]) == Chats(ps) + if IsChat(p.body) then [p] else []
  {
    assert (ps + [p])[..|ps|] == ps;
  }

  /**
   In every TCP run, local send failures included, bytes are sent only right after their payload was
   issued, and are its encoding: nothing is sent twice, out of order or without being issued.
   */
  lemma SentAsIssued(limit: nat, es: seq<Event>, i: nat)
    requires i < |Run(Init(TCP, limit), es).log| && Run(Init(TCP, limit), es).log[i].Sent?
    ensures var log := Run(Init(TCP, limit), es).log;
            i > 0 && log[i - 1] == Issued(log[i].p) && log[i].bytes == Tcp.Encode(log[i].p.body)
  {
    hide Run, Tcp.Encode, Tcp.Printable;
    OrderedRun(limit, es, false);
  }

  /**
   In every TCP run without send failures the AUTH, JOIN and MSG payloads sent are exactly those
   issued, in order, and the bytes of each decode to it.
   */
  lemma ChatsArriveInOrder(limit: nat, es: seq<Event>)
    requires AllFaultless(es)
    ensures var c := Run(Init(TCP, limit), es);
            && Chats(SentOf(c.log)) == ChatLog(c)
            && (forall i :: 0 <= i < |c.log| && c.log[i].Sent? && IsChat(c.log[i].p.body) ==>
                  Tcp.Decode(c.log[i].bytes) == Some(c.log[i].p.body))
  {
    hide Run, Tcp.Encode, Tcp.Printable, Tcp.Decode, WellFormed, IsChat, Chats, Issues, SentOf;
    var c := Run(Init(TCP, limit), es);
    OrderedRun(limit, es, true);
    IssuedIsSent(c.log);
    forall i | 0 <= i < |c.log| && c.log[i].Sent? && IsChat(c.log[i].p.body)
      ensures Tcp.Decode(c.log[i].bytes) == Some(c.log[i].p.body)
    {
      assert c.log[i - 1] == Issued(c.log[i].p);
      ChatDecodes(c.log[i].p.body);
    }
  }

  lemma ChatDecodes(b: Body)
    requires WellFormed(b) && IsChat(b)
    ensures Tcp.Decode(Tcp.Encode(b)) == Some(b)
  {
    hide Tcp.Encode, Tcp.Decode, WellFormed;
    Tcp.RoundTrip(b);
  }
}
