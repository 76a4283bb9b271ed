/** The handlers of src/client.c over their mutable state, each proved to take the step of Protocol. */
module Clients {
  import opened Window
  import opened Payloads
  import opened BitFields
  import opened Tries
  import opened Protocol
  import Keywords
  import Commands
  import Udp
  import Tcp

  /** The texts the client puts into an ERR fit its content field. */
  lemma TextsFit()
    ensures |MalformedText()| <= Limit(Content) && |SendFailedText()| <= Limit(Content)
  {
  }

  /** The texts of a command lie within their fields. */
  predicate Stored(cmd: Commands.Command) {
    match cmd
    case Say(text) => |text| <= Limit(Content)
    case Authenticate(u, s, d) => |u| <= Limit(Username) && |s| <= Limit(Secret) && |d| <= Limit(DisplayName)
    case JoinChannel(ch) => |ch| <= Limit(ChannelId)
    case Rename(d) => |d| <= Limit(DisplayName)
    case _ => true
  }

  /** What the parser returns lies in the arrays of a command. */
  lemma ParsedFits(line: seq<byte>)
    ensures Commands.Parse(line).Some? ==> Stored(Commands.Parse(line).value)
  {
    hide Commands.Parse, Commands.Render, Trim;
    if Commands.Parse(line).Some? {
      Commands.ParseExact(line, Commands.Parse(line).value);
    }
  }

  class ChatClient {
    const mode: Mode
    const limit: nat
    const received: BitField
    const replies: Trie
    const commands: Trie
    var control: Control
    var state: State
    var name: seq<byte>
    var current: Payload
    var confirmed: bool
    var retries: nat
    var nextId: MessageId
    var error: bool
    var log: seq<Entry>
    ghost var created: nat

    /** The two keyword tries hold their tables. */
    ghost predicate Tables()
      reads replies, replies.Repr, commands, commands.Repr
    {
      && replies.Valid() && replies.toIndex == Tcp.PrefixIndex && replies.Nodes == Keywords.Built(Tcp.Entries())
      && commands.Valid() && commands.toIndex == Commands.CharIndex
      && commands.Nodes == Keywords.Built(Commands.Entries())
    }

    ghost predicate Valid()
      reads this, received, received.data, replies, replies.Repr, commands, commands.Repr
    {
      && Tables() && received.Valid()
      && this !in replies.Repr && this !in commands.Repr
      && received.data !in replies.Repr && received.data !in commands.Repr
      && |name| <= Limit(DisplayName) && Fits(current.body)
      && nextId == created % 0x1_0000
    }

    /** The state of the machine that the fields stand for. */
    ghost function Snapshot(): Client
      reads this, received, received.data
      requires received.Valid()
    {
      Client(mode, limit, control, state, name, current, confirmed, retries, created, received.Ids(), error, log)
    }

    /** client_init. */
    constructor (mode: Mode, limit: nat)
      ensures Valid() && Snapshot() == Init(mode, limit)
    {
      hide Keywords.Built, Tcp.Entries, Commands.Entries, Trie.Valid;
      var replyTable := Tcp.Setup();
      var commandTable := Commands.Setup();
      received := new BitField();
      this.mode, this.limit, replies, commands := mode, limit, replyTable, commandTable;
      control, state, name := Checking, StateStart, [];
      current, confirmed, retries := Payload(0, Confirm), true, 0;
      nextId, error, log, created := 0, false, [], 0;
    }

    // -------------------------------------------------------------- sending

    /** payload_new. */
    method Issue(body: Body)
      requires Valid() && Fits(body)
      modifies this`current, this`nextId, this`created, this`log
      ensures Valid() && Snapshot() == Protocol.Issue(old(Snapshot()), body)
    {
      hide Tables;
      current := Payload(nextId, body);
      nextId := (nextId + 1) % 0x1_0000;
      created := created + 1;
      log := log + [Issued(current)];
    }

    method Transmit(p: Payload, fault: bool)
      requires Valid() && Fits(p.body)
      modifies this`error, this`log
      ensures Valid() && Snapshot() == Protocol.Transmit(old(Snapshot()), p, fault)
    {
      hide Tables, Udp.Datagram, Tcp.Encode, Tcp.Printable, BitField.Ids, Limit;
      if mode == UDP {
        var buf := Udp.Serialize(p, error);
        if fault {
          error := true;
        } else {
          log := log + [Sent(p, buf.data[buf.offset..buf.offset + buf.len])];
        }
      } else if !p.body.Confirm? {
        var ok, buf := Tcp.Serialize(p.body);
        if error || fault || !ok {
          error := true;
        } else {
          log := log + [Sent(p, buf.data[buf.offset..buf.offset + buf.len])];
        }
      }
    }

    /** The first half of client_send. */
    method SendOrErr(body: Body, f: Faults)
      requires Valid() && Fits(body)
      modifies this`current, this`nextId, this`created, this`log, this`error, this`state
      ensures Valid() && Snapshot() == Protocol.SendOrErr(old(Snapshot()), body, f)
    {
      hide Tables, Protocol.Issue, Protocol.Transmit, BitField.Ids, SendFailedText, Ascii;
      Issue(body);
      Transmit(current, f.first);
      if error {
        SendErrInstead(f.second);
      }
    }

    method SendErrInstead(fault: bool)
      requires Valid()
      modifies this`current, this`nextId, this`created, this`log, this`error, this`state
      ensures Valid()
      ensures Snapshot() ==
              var e := Protocol.Issue(old(Snapshot()).(error := false), Err(old(name), SendFailedText()));
              Protocol.Transmit(e, e.current, fault).(state := StateError)
    {
      hide Tables, Protocol.Issue, Protocol.Transmit, BitField.Ids, SendFailedText, Ascii, Limit;
      TextsFit();
      error := false;
      Issue(Err(name, SendFailedText()));
      Transmit(current, fault);
      state := StateError;
    }

    method ClientSend(body: Body, f: Faults)
      requires Valid() && Fits(body)
      modifies this`current, this`nextId, this`created, this`log, this`error, this`state, this`confirmed
      ensures Valid() && Snapshot() == Protocol.ClientSend(old(Snapshot()), body, f)
    {
      hide Tables, Protocol.SendOrErr, BitField.Ids, Limit;
      SendOrErr(body, f);
      if error {
        state := StateEnd;
        return;
      }
      confirmed := mode == TCP;
    }

    // -------------------------------------------------------------- the handlers

    method HandleSignal(f: Faults)
      requires Valid()
      modifies this
      ensures Valid() && Snapshot() == Protocol.HandleSignal(old(Snapshot()), f)
    {
      hide Tables, Protocol.ClientSend;
      if state != StateStart {
        ClientSend(Bye, f);
      }
      state := StateEnd;
    }

    method HandlePollError(f: Faults)
      requires Valid()
      modifies this
      ensures Valid() && Snapshot() == Protocol.HandlePollError(old(Snapshot()), f)
    {
      hide Tables, Protocol.ClientSend;
      state := StateEnd;
      ClientSend(Bye, f);
    }

    method HandleTimeout(f: Faults)
      requires Valid()
      modifies this
      ensures Valid() && Snapshot() == Protocol.HandleTimeout(old(Snapshot()), f)
    {
      hide Tables, Protocol.Transmit;
      retries := retries + 1;
      if retries > limit {
        state, control := StateEnd, Stopped;
        return;
      }
      Transmit(current, f.first);
    }

    method SendMalformed(f: Faults)
      requires Valid()
      modifies this`current, this`nextId, this`created, this`log, this`error, this`state, this`confirmed
      ensures Valid() && Snapshot() == Protocol.SendMalformed(old(Snapshot()), f)
    {
      hide Tables, Protocol.ClientSend, BitField.Ids, Limit, SendFailedText, MalformedText, Ascii;
      TextsFit();
      ClientSend(Err(name, MalformedText()), f);
      state := StateError;
    }

    /** CONNECTION.receive, without its effect on the error. */
    method Receive(packet: Packet) returns (r: Reception)
      requires Tables() && (packet.Arrived? ==> |packet.bytes| <= BYTES_SIZE)
      ensures r == Protocol.Receive(mode, packet)
    {
      hide Udp.Decode, Tcp.Decode, Keywords.Built, Tcp.Entries, Commands.Entries;
      if packet.Elsewhere? {
        return Ignored;
      }
      if packet.Failed? {
        return Bad(0, 0);
      }
      var buf := new Bytes.Receive(packet.bytes);
      if mode == UDP {
        var d := Udp.Deserialize(buf);
        r := match d case Good(p) => Got(p) case Bad(code, id) => Reception.Bad(code, id);
      } else {
        var d := Tcp.Deserialize(buf, replies);
        r := match d case Some(b) => Got(Payload(packet.junk, b)) case None => Reception.Bad(0, packet.junk);
      }
    }

    method Process(p: Payload, f: Faults)
      requires Valid()
      modifies this, received.data
      ensures Valid() && Snapshot() == Protocol.Process(old(Snapshot()), p, f)
    {
      hide Tables, Protocol.ClientSend, Protocol.SendMalformed, BitField.Ids, BitField.Valid, Limit, Ascii;
      received.Insert(p.id);
      log := log + [Processed(p, state)];
      match p.body {
        case Auth(_, _, _) => SendMalformed(f);
        case Join(_, _) => SendMalformed(f);
        case Reply(result, _, _) =>
          if state == StateAuth || state == StateOpen {
            if result {
              state := StateOpen;
            } else if state == StateAuth {
              state := StateNotAuth;
            }
          }
        case Err(_, _) =>
          ClientSend(Body.Bye, f);
          state := StateEnd;
        case Bye =>
          if state != StateOpen {
            ClientSend(Body.Bye, f);
          }
          state := StateEnd;
        case Confirm =>
        case Message(_, _) =>
      }
    }

    method HandleSocket(packet: Packet, f: Faults)
      requires Valid() && (packet.Arrived? ==> |packet.bytes| <= BYTES_SIZE)
      modifies this, received.data
      ensures Valid() && Snapshot() == Protocol.HandleSocket(old(Snapshot()), Protocol.Receive(mode, packet), f)
    {
      hide Tables, Protocol.Receive, Protocol.HandleSocket;
      var rx := Receive(packet);
      HandleReception(rx, f);
    }

    method HandleReception(rx: Reception, f: Faults)
      requires Valid()
      modifies this, received.data
      ensures Valid() && Snapshot() == Protocol.HandleSocket(old(Snapshot()), rx, f)
    {
      hide Tables, Protocol.Transmit, Protocol.SendMalformed, Protocol.Accept, BitField.Ids, BitField.Valid;
      hide TypeCode, Limit, Ascii;
      if rx.Ignored? {
        error := false;
        return;
      }
      var code := if rx.Got? then TypeCode(rx.p.body) else rx.code;
      var id := if rx.Got? then rx.p.id else rx.id;
      error := error || rx.Bad?;
      if code != CONFIRM {
        if !confirmed {
          return;
        }
        Transmit(Payload(id, Confirm), f.confirm);
      }
      if error {
        error := false;
        SendMalformed(f);
        return;
      }
      if rx.Bad? {
        return;
      }
      Accept(rx.p, f);
    }

    /** The part of client_handle_socket for a payload that came without error. */
    method Accept(p: Payload, f: Faults)
      requires Valid()
      modifies this, received.data
      ensures Valid() && Snapshot() == Protocol.Accept(old(Snapshot()), p, f)
    {
      hide Tables, Protocol.Process, BitField.Ids, Fits;
      if p.body.Confirm? {
        if p.id == current.id {
          confirmed, retries := true, 0;
        }
        return;
      }
      var duplicate := received.Contains(p.id);
      if mode == UDP && duplicate {
        return;
      }
      Process(p, f);
    }

    method HandleInput(input: Input, f: Faults)
      requires Valid()
      modifies this
      ensures Valid() && Snapshot() == Protocol.HandleInput(old(Snapshot()), input, f)
    {
      hide Tables, Understand, Protocol.ClientSend, Protocol.Obey, BitField.Ids, Limit;
      if input.Eof? {
        var _ := ReadBytes(input.tail);
        ClientSend(Bye, f);
        state := StateEnd;
        return;
      }
      if input.text == [] {
        return;
      }
      var cmd := ParseLine(input.text);
      if error {
        error := false;
        return;
      }
      Obey(cmd.value, f);
    }

    /** The loop of readLineStdin, which goes on reading when the buffer is full. */
    method ReadBytes(text: seq<byte>) returns (buf: Bytes)
      requires Valid()
      modifies this`error
      ensures Valid() && fresh(buf) && fresh(buf.data) && buf.Valid() && buf.offset == 0 && buf.ZeroTail()
      ensures error == (old(error) || |text| > BYTES_SIZE)
      ensures buf.View() == text[..if |text| <= BYTES_SIZE then |text| else BYTES_SIZE]
    {
      hide Tables;
      buf := new Bytes();
      for i := 0 to |text|
        modifies this`error, buf`len, buf.data
        invariant Valid() && buf.Valid() && buf.offset == 0 && buf.ZeroTail()
        invariant error == (old(error) || i > BYTES_SIZE)
        invariant buf.View() == text[..if i <= BYTES_SIZE then i else BYTES_SIZE]
      {
        if i >= BYTES_SIZE {
          error := true;
        } else {
          buf.PushArr([text[i]]);
        }
      }
    }

    /** readLineStdin and command_parse: any failure, or an error from before, is left in the error. */
    method ParseLine(text: seq<byte>) returns (r: Option<Commands.Command>)
      requires Valid()
      modifies this`error
      ensures Valid() && r == Understand(text) && error == (old(error) || r.None?) && (r.Some? ==> Stored(r.value))
    {
      hide Tables, Commands.Parse;
      var buf := ReadBytes(text);
      assert buf.len == |buf.View()| && buf.data[..buf.len] == buf.View();
      if buf.len == BYTES_SIZE {
        error := true;
        return None;
      }
      assert buf.View() == text;
      var line := CString(buf.data[..buf.len]);
      r := ParseText(line);
      error := error || r.None?;
    }

    method ParseText(text: seq<byte>) returns (r: Option<Commands.Command>)
      requires Tables() && |text| < BYTES_SIZE && NUL !in text
      ensures r == Commands.Parse(text) && (r.Some? ==> Stored(r.value))
    {
      hide Commands.Parse, Keywords.Built, Tcp.Entries, Commands.Entries;
      r := Commands.ParseLine(text, commands);
      ParsedFits(text);
    }

    method Obey(cmd: Commands.Command, f: Faults)
      requires Valid() && Stored(cmd)
      modifies this
      ensures Valid() && Snapshot() == Protocol.Obey(old(Snapshot()), cmd, f)
    {
      hide Tables, Protocol.ClientSend, BitField.Ids;
      match cmd {
        case Say(text) =>
          if state == StateOpen {
            ClientSend(Message(name, text), f);
          }
        case Authenticate(username, secret, displayName) =>
          if state == StateStart || state == StateNotAuth {
            name := displayName;
            ClientSend(Auth(username, name, secret), f);
            state := StateAuth;
          }
        case JoinChannel(channelId) =>
          if state == StateOpen {
            ClientSend(Join(channelId, name), f);
          }
        case Rename(displayName) => name := displayName;
        case Help =>
        case Clear =>
        case Exit =>
          state := StateEnd;
          ClientSend(Bye, f);
      }
    }

    method HandleFinish(f: Faults)
      requires Valid()
      modifies this
      ensures Valid() && Snapshot() == Protocol.HandleFinish(old(Snapshot()), f)
    {
      hide Tables, Protocol.ClientSend;
      if state == StateError && confirmed {
        ClientSend(Bye, f);
        state := StateEnd;
      }
    }

    // -------------------------------------------------------------- the event loop

    method Step(e: Event)
      requires Valid()
      modifies this, received.data
      ensures Valid() && Snapshot() == Protocol.Step(old(Snapshot()), e)
    {
      hide Tables, Protocol.HandleSignal, Protocol.HandlePollError, Protocol.HandleTimeout, Protocol.Receive;
      hide Protocol.HandleSocket, Protocol.HandleInput, Protocol.HandleFinish;
      if !Occurs(mode, control, e) {
        return;
      }
      match e {
        case Signal(f) => HandleSignal(f);
        case Enter =>
          control :=
            if state == StateEnd && confirmed then Stopped
            else Waiting(state != StateAuth && confirmed, !confirmed);
        case PollError(f) =>
          HandlePollError(f);
          control := Checking;
        case Expire(f) =>
          control := Checking;
          HandleTimeout(f);
        case Ready(socket, stdin) => control := Handling(socket, stdin);
        case Socket(packet, f) =>
          control := Handling(false, control.stdin);
          HandleSocket(packet, f);
        case Stdin(input, f) =>
          control := Handling(control.socket, false);
          HandleInput(input, f);
        case Finish(f) =>
          HandleFinish(f);
          control := Checking;
      }
    }

    /** client_run, with the outside world given as the events it meets. */
    method Run(es: seq<Event>)
      requires Valid()
      modifies this, received.data
      ensures Valid() && Snapshot() == Protocol.Run(old(Snapshot()), es)
    {
      hide Tables, Protocol.Step;
      for i := 0 to |es|
        invariant Valid() && Snapshot() == Protocol.Run(old(Snapshot()), es[..i])
      {
        Step(es[i]);
        assert es[..i + 1][..i] == es[..i];
      }
      assert es[..|es|] == es;
    }
  }
}
