/**
 The other direction: what the client acts on, against a server that sends its next payload only when
 the last one has been confirmed, over a network that loses, repeats and reorders.
 */
module Incoming {
  import opened Window
  import opened Payloads
  import opened Protocol
  import opened Phases
  import opened StopAndWait
  import opened Exchanges
  import Coherence
  import Commands
  import Delivery
  import Tcp
  import Udp

  /** The payloads the server has sent, and whether it has seen the CONFIRM of the last. */
  datatype Sender = Sender(sent: seq<Payload>, acked: bool)

  datatype Link = Link(client: Client, sender: Sender)

  datatype Move = ClientMove(e: Event) | Push(body: Body) | Collect(bytes: seq<byte>)

  /** The payloads acted on, in order. */
  function Acted(log: seq<Entry>): seq<Payload> {
    if log == [] then []
    else
      var e := log[|log| - 1];
      Acted(log[..|log| - 1]) + if e.Processed? then [e.p] else []
  }

  /**
   A datagram of the server, any CONFIRM, a datagram from elsewhere, a failed receive, or a malformed
   datagram.  One of these is confirmed like a payload, so it must be dropped or carry a received ID.
   */
  ghost predicate Brought(c: Client, s: Sender, packet: Packet) {
    var rx := Receive(UDP, packet);
    || rx.Ignored?
    || (rx.Bad? && (rx.code == CONFIRM || !c.confirmed || rx.id in c.received))
    || (rx.Got? && rx.p.body.Confirm?)
    || (packet.Arrived? && exists q :: q in s.sent && packet.bytes == Udp.Encode(q))
  }

  predicate Sendable(sent: seq<Payload>) {
    forall k :: 0 <= k < |sent| ==> WellFormed(sent[k].body) && !sent[k].body.Confirm?
  }

  /** What a packet so brought is taken for. */
  lemma BroughtIs(c: Client, s: Sender, packet: Packet)
    requires Sendable(s.sent) && Brought(c, s, packet)
    ensures var rx := Receive(UDP, packet);
            || rx.Ignored?
            || (rx.Bad? && (rx.code == CONFIRM || !c.confirmed || rx.id in c.received))
            || (rx.Got? && (rx.p.body.Confirm? || rx.p in s.sent))
  {
    hide Receive, Udp.Encode, WellFormed;
    if packet.Arrived? && exists q :: q in s.sent && packet.bytes == Udp.Encode(q) {
      var q :| q in s.sent && packet.bytes == Udp.Encode(q);
      var k :| 0 <= k < |s.sent| && s.sent[k] == q;
      DecodesTo(packet, q);
    }
  }

  lemma DecodesTo(packet: Packet, q: Payload)
    requires packet.Arrived? && packet.bytes == Udp.Encode(q) && WellFormed(q.body)
    ensures Receive(UDP, packet) == Got(q)
  {
    hide Udp.Encode, Udp.Decode, WellFormed;
    Udp.RoundTrip(q);
  }

  ghost predicate Possible(l: Link, m: Move) {
    match m
    case ClientMove(e) => Faultless(e) && (e.Socket? ==> Brought(l.client, l.sender, e.packet))
    case Push(body) => l.sender.acked && WellFormed(body) && !body.Confirm?
    case Collect(bytes) => Delivery.OnTheWire(l.client, bytes)
  }

  function Hears(s: Sender, bytes: seq<byte>): Sender {
    match Udp.Decode(bytes)
    case Bad(_, _) => s
    case Good(p) =>
      if p.body.Confirm? && s.sent != [] && p.id == s.sent[|s.sent| - 1].id then s.(acked := true) else s
  }

  ghost function Next(l: Link, m: Move): Link {
    if !Possible(l, m) then l
    else
      match m
      case ClientMove(e) => l.(client := Step(l.client, e))
      case Push(body) => l.(sender := Sender(l.sender.sent + [Payload(|l.sender.sent| % IDS, body)], false))
      case Collect(bytes) => l.(sender := Hears(l.sender, bytes))
  }

  ghost function Play(limit: nat, ms: seq<Move>): Link {
    if ms == [] then Link(Init(UDP, limit), Sender([], true))
    else Next(Play(limit, ms[..|ms| - 1]), ms[|ms| - 1])
  }

  // ---------------------------------------------------------------- what a step adds to the trace

  /** From `c` to `d` exactly these payloads are acted on, and only these IDs are confirmed. */
  predicate Adds(c: Client, d: Client, acted: seq<Payload>, ids: set<MessageId>) {
    && c.log <= d.log && Acted(d.log[|c.log|..]) == acted
    && forall i :: |c.log| <= i < |d.log| && IsConfirm(d.log[i]) ==> d.log[i].p.id in ids
  }

  lemma {:induction false} ActedConcat(a: seq<Entry>, b: seq<Entry>)
    ensures Acted(a + b) == Acted(a) + Acted(b)
  {
    if b == [] {
      assert a + b == a;
    } else {
      var init, e := b[..|b| - 1], b[|b| - 1];
      var x := if e.Processed? then [e.p] else [];
      ActedConcat(a, init);
      assert (a + b)[..|a + b| - 1] == a + init;
      assert (Acted(a) + Acted(init)) + x == Acted(a) + (Acted(init) + x);
    }
  }

  lemma {:induction false} QuietActed(es: seq<Entry>)
    requires Quiet(es)
    ensures Acted(es) == []
  {
    if es != [] {
      QuietActed(es[..|es| - 1]);
    }
  }

  lemma AddsQuiet(c: Client, d: Client, es: seq<Entry>)
    requires d.log == c.log + es && Quiet(es)
    ensures Adds(c, d, [], {})
  {
    hide Acted;
    QuietActed(es);
    assert d.log[|c.log|..] == es;
  }

  lemma AddsThen(c: Client, d: Client, e: Client, xs: seq<Payload>, a: set<MessageId>)
    requires Adds(c, d, xs, a) && Adds(d, e, [], {})
    ensures Adds(c, e, xs, a)
  {
    hide Acted;
    ActedConcat(d.log[|c.log|..], e.log[|d.log|..]);
    assert e.log[|c.log|..] == d.log[|c.log|..] + e.log[|d.log|..];
  }

  lemma SendAdds(c: Client, body: Body, f: Faults)
    requires !body.Confirm?
    ensures Adds(c, ClientSend(c, body, f), [], {})
  {
    hide ClientSend, Adds;
    var rest := SendShape(c, body, f);
    AddsQuiet(c, ClientSend(c, body, f), [Issued(Payload(c.created % 0x1_0000, body))] + rest);
  }

  /** Where the log ends does not depend on the other fields. */
  lemma AddsFrame(c: Client, d: Client)
    requires c.log == d.log
    ensures forall e: Client, xs, ids :: Adds(c, e, xs, ids) == Adds(d, e, xs, ids)
    ensures forall e: Client, xs, ids :: Adds(e, c, xs, ids) == Adds(e, d, xs, ids)
    ensures Adds(c, d, [], {})
  {
    assert c.log[|c.log|..] == [];
  }

  /** The CONFIRM, and for a new payload the entry for acting on it. */
  lemma TakeAdds(c: Client, d: Client, p: Payload, fresh': bool, at: State)
    requires var confirm := Sent(Payload(p.id, Confirm), Udp.Encode(Payload(p.id, Confirm)));
             d.log == if fresh' then c.log + [confirm] + [Processed(p, at)] else c.log + [confirm]
    ensures Adds(c, d, if fresh' then [p] else [], {p.id})
  {
    hide Udp.Encode;
    var confirm := Sent(Payload(p.id, Confirm), Udp.Encode(Payload(p.id, Confirm)));
    var es := if fresh' then [confirm] + [Processed(p, at)] else [confirm];
    assert d.log[|c.log|..] == es;
    ActedConcat([confirm], [Processed(p, at)]);
    assert Acted([confirm]) == [] && Acted([Processed(p, at)]) == [p];
  }

  lemma ProcessAdds(c: Client, p: Payload)
    requires !p.body.Confirm?
    ensures var b := c.(received := c.received + {p.id}, log := c.log + [Processed(p, c.state)]);
            Adds(b, Process(c, p, NO_FAULTS), [], {})
  {
    hide ClientSend, Adds, MalformedText, Ascii;
    var b := c.(received := c.received + {p.id}, log := c.log + [Processed(p, c.state)]);
    var d := Process(c, p, NO_FAULTS);
    SendAdds(b, Body.Bye, NO_FAULTS);
    SendAdds(b, Err(b.name, MalformedText()), NO_FAULTS);
    if d.log == b.log {
      AddsFrame(b, d);
    } else if p.body.Auth? || p.body.Join? {
      AddsFrame(ClientSend(b, Err(b.name, MalformedText()), NO_FAULTS), d);
    } else {
      AddsFrame(ClientSend(b, Body.Bye, NO_FAULTS), d);
    }
  }

  lemma MalformedAdds(c: Client)
    ensures Adds(c, SendMalformed(c, NO_FAULTS), [], {})
  {
    hide ClientSend, Adds, MalformedText, Ascii;
    SendAdds(c, Err(c.name, MalformedText()), NO_FAULTS);
    AddsFrame(ClientSend(c, Err(c.name, MalformedText()), NO_FAULTS), SendMalformed(c, NO_FAULTS));
  }

  /** A payload of the server that is not dropped. */
  lemma TakenAdds(c: Client, p: Payload)
    requires c.mode == UDP && c.confirmed && !c.error && !p.body.Confirm?
    ensures var d := HandleSocket(c, Got(p), NO_FAULTS);
            Adds(c, d, if p.id in c.received then [] else [p], {p.id})
  {
    hide Process, Adds, Udp.Encode, TypeCode, SendMalformed;
    Coherence.CodeOfConfirm(p.body);
    var b := Transmit(c, Payload(p.id, Confirm), false);
    var d := HandleSocket(c, Got(p), NO_FAULTS);
    if p.id in c.received {
      TakeAdds(c, d, p, false, c.state);
    } else {
      var b' := b.(received := b.received + {p.id}, log := b.log + [Processed(p, b.state)]);
      TakeAdds(c, b', p, true, c.state);
      ProcessAdds(b, p);
      AddsThen(c, b', d, [p], {p.id});
    }
  }

  lemma AddsMore(c: Client, d: Client, xs: seq<Payload>, a: set<MessageId>, b: set<MessageId>)
    requires Adds(c, d, xs, a) && a <= b
    ensures Adds(c, d, xs, b)
  {
  }

  /** A malformed datagram is confirmed and answered. */
  lemma BadAdds(c: Client, rx: Reception)
    requires rx.Bad? && rx.code != CONFIRM && c.confirmed && c.mode == UDP
    ensures Adds(c, HandleSocket(c, rx, NO_FAULTS), [], {rx.id})
  {
    hide SendMalformed, Adds, Udp.Datagram;
    var a := c.(error := true);
    var b := Transmit(a, Payload(rx.id, Confirm), false);
    assert b.log == c.log + [Sent(Payload(rx.id, Confirm), Udp.Datagram(Payload(rx.id, Confirm), true))];
    ConfirmAdds(c, b, Sent(Payload(rx.id, Confirm), Udp.Datagram(Payload(rx.id, Confirm), true)));
    MalformedAdds(b.(error := false));
    AddsFrame(b.(error := false), b);
    AddsThen(c, b, HandleSocket(c, rx, NO_FAULTS), [], {rx.id});
  }

  lemma ConfirmAdds(c: Client, d: Client, confirm: Entry)
    requires IsConfirm(confirm) && d.log == c.log + [confirm]
    ensures Adds(c, d, [], {confirm.p.id})
  {
    assert d.log[|c.log|..] == [confirm];
    assert Acted([confirm]) == [];
  }

  /** Any other packet adds nothing that matters here. */
  lemma OtherAdds(c: Client, rx: Reception)
    requires !c.confirmed || rx.Ignored? || (rx.Bad? && rx.code == CONFIRM) || (rx.Got? && rx.p.body.Confirm?)
    ensures Adds(c, HandleSocket(c, rx, NO_FAULTS), [], {})
  {
    hide SendMalformed, Adds, Process;
    AddsFrame(c, HandleSocket(c, rx, NO_FAULTS).(log := c.log));
    var b := c.(error := false);
    MalformedAdds(b);
    AddsFrame(b, c);
    if HandleSocket(c, rx, NO_FAULTS).log == c.log {
      AddsFrame(c, HandleSocket(c, rx, NO_FAULTS));
    }
  }

  lemma InputAdds(c: Client, input: Input)
    ensures Adds(c, HandleInput(c, input, NO_FAULTS), [], {})
  {
    hide ClientSend, Adds, Understand, Obey;
    var d := HandleInput(c, input, NO_FAULTS);
    if d.log == c.log {
      AddsFrame(c, d);
    } else if input.Eof? {
      var b := c.(error := c.error || |input.tail| > BYTES_SIZE);
      SendAdds(b, Body.Bye, NO_FAULTS);
      AddsFrame(b, c);
      AddsFrame(ClientSend(b, Body.Bye, NO_FAULTS), d);
    } else {
      ObeyAdds(c, Understand(input.text).value);
    }
  }

  lemma ObeyAdds(c: Client, cmd: Commands.Command)
    ensures Adds(c, Obey(c, cmd, NO_FAULTS), [], {})
  {
    hide ClientSend, Adds;
    var d := Obey(c, cmd, NO_FAULTS);
    if d.log == c.log {
      AddsFrame(c, d);
    } else {
      match cmd
      case Say(text) => SendAdds(c, Message(c.name, text), NO_FAULTS);
      case JoinChannel(ch) => SendAdds(c, Join(ch, c.name), NO_FAULTS);
      case Authenticate(u, s, n) =>
        var b := c.(name := n);
        SendAdds(b, Auth(u, n, s), NO_FAULTS);
        AddsFrame(b, c);
        AddsFrame(ClientSend(b, Auth(u, n, s), NO_FAULTS), d);
      case Exit =>
        var b := c.(state := StateEnd);
        SendAdds(b, Body.Bye, NO_FAULTS);
        AddsFrame(b, c);
      case _ =>
    }
  }

  /** A signal, a failed poll or the end of an iteration. */
  lemma ByeAdds(c: Client, d: Client)
    requires d.log == c.log || d.log == ClientSend(c, Body.Bye, NO_FAULTS).log
             || d.log == ClientSend(c.(state := StateEnd), Body.Bye, NO_FAULTS).log
    ensures Adds(c, d, [], {})
  {
    hide ClientSend, Adds;
    var b := c.(state := StateEnd);
    SendAdds(c, Body.Bye, NO_FAULTS);
    SendAdds(b, Body.Bye, NO_FAULTS);
    AddsFrame(b, c);
    if d.log == c.log {
      AddsFrame(c, d);
    } else if d.log == ClientSend(c, Body.Bye, NO_FAULTS).log {
      AddsFrame(ClientSend(c, Body.Bye, NO_FAULTS), d);
    } else {
      AddsFrame(ClientSend(b, Body.Bye, NO_FAULTS), d);
    }
  }

  lemma ExpireAdds(c: Client, d: Client)
    requires Timer(c) && !c.confirmed && (d.log == c.log || d.log == Transmit(c, c.current, false).log)
    ensures Adds(c, d, [], {})
  {
    hide Adds, Udp.Datagram, Tcp.Encode, Tcp.Printable;
    if d.log == c.log {
      AddsFrame(c, d);
    } else {
      var sent := TransmitShape(c, c.current, false);
      AddsQuiet(c, d, sent);
    }
  }

  predicate Takes(c: Client, e: Event) {
    Coherence.Arrives(c, e) && c.confirmed
  }

  lemma StepAdds(c: Client, e: Event, s: Sender)
    requires Settled(c) && Timer(c) && c.mode == UDP && Faultless(e) && (e.Socket? ==> Brought(c, s, e.packet))
    requires Sendable(s.sent)
    ensures var d := Step(c, e);
            if Takes(c, e) then
              var p := Receive(UDP, e.packet).p;
              Adds(c, d, if p.id in c.received then [] else [p], {p.id}) && d.received == c.received + {p.id}
            else Adds(c, d, [], c.received) && d.received == c.received
  {
    hide ClientSend, HandleSocket, HandleInput, HandleTimeout, Receive, Adds, Named, Decided;
    var d := Step(c, e);
    if Adds(c, d, [], {}) {
      AddsMore(c, d, [], {}, c.received);
    }
    if !Enabled(c, e) || e.Enter? || e.Ready? {
      AddsFrame(c, d);
    } else {
      match e
      case Socket(packet, f) => SocketAdds(c, packet, s);
      case Stdin(input, f) =>
        var b := c.(control := Handling(c.control.socket, false));
        InputAdds(b, input);
        AddsFrame(b, c);
        Coherence.InputReceives(b, input, f);
      case Expire(f) => TimeoutAdds(c);
      case _ =>
        SendAny();
        ByeAdds(c, d);
    }
  }

  lemma TimeoutAdds(c: Client)
    requires Timer(c) && Enabled(c, Expire(NO_FAULTS))
    ensures var d := Step(c, Expire(NO_FAULTS)); Adds(c, d, [], {}) && d.received == c.received
  {
    hide Adds, Udp.Datagram, Tcp.Encode, Tcp.Printable;
    ExpireAdds(c, Step(c, Expire(NO_FAULTS)));
  }

  lemma SocketAdds(c: Client, packet: Packet, s: Sender)
    requires Settled(c) && c.mode == UDP && Enabled(c, Socket(packet, NO_FAULTS)) && Brought(c, s, packet)
    requires Sendable(s.sent)
    ensures var e := Socket(packet, NO_FAULTS);
            var d := Step(c, e);
            if Takes(c, e) then
              var p := Receive(UDP, packet).p;
              Adds(c, d, if p.id in c.received then [] else [p], {p.id}) && d.received == c.received + {p.id}
            else Adds(c, d, [], c.received) && d.received == c.received
  {
    hide HandleSocket, Receive, Adds, Named, Decided;
    var b := c.(control := Handling(false, c.control.stdin));
    var rx := Receive(UDP, packet);
    AddsFrame(b, c);
    if Takes(c, Socket(packet, NO_FAULTS)) {
      TakenAdds(b, rx.p);
      Coherence.ArrivalExact(b, rx.p, NO_FAULTS);
    } else {
      BroughtIs(c, s, packet);
      if rx.Bad? && rx.code != CONFIRM && c.confirmed {
        BadAdds(b, rx);
        AddsMore(c, Step(c, Socket(packet, NO_FAULTS)), [], {rx.id}, c.received);
      } else {
        OtherAdds(b, rx);
        AddsMore(c, Step(c, Socket(packet, NO_FAULTS)), [], {}, c.received);
      }
      if rx.Got? && !rx.p.body.Confirm? {
        Coherence.DroppedArrival(b, rx.p, NO_FAULTS);
      } else {
        Coherence.OtherArrival(b, rx, NO_FAULTS);
      }
    }
  }

  // ---------------------------------------------------------------- the invariant

  /** All acted on but perhaps the last, and the last too once its CONFIRM has been seen. */
  predicate InOrder(l: Link) {
    var acted, sent := Acted(l.client.log), l.sender.sent;
    && acted <= sent && |sent| <= |acted| + 1 && (l.sender.acked ==> acted == sent)
  }

  /** While IDs do not come back, the received IDs count the payloads acted on, and only those are confirmed. */
  predicate Counted(c: Client) {
    && (forall id: MessageId :: id in c.received <==> id < |Acted(c.log)|)
    && (forall i :: 0 <= i < |c.log| && IsConfirm(c.log[i]) ==> c.log[i].p.id in c.received)
  }

  predicate IdsCount(sent: seq<Payload>) {
    forall k :: 0 <= k < |sent| ==> sent[k].id == k % IDS
  }

  ghost predicate Orderly(c: Client) {
    c.mode == UDP && Settled(c) && Timer(c) && Kept(c) && Delivery.Ledger(c)
  }

  ghost predicate Sound(l: Link) {
    && Orderly(l.client) && Sendable(l.sender.sent) && IdsCount(l.sender.sent)
    && (|l.sender.sent| <= IDS ==> InOrder(l) && Counted(l.client))
  }

  lemma ActedGrows(c: Client, d: Client, acted: seq<Payload>, ids: set<MessageId>)
    requires Adds(c, d, acted, ids)
    ensures Acted(d.log) == Acted(c.log) + acted
  {
    hide Acted;
    ActedConcat(c.log, d.log[|c.log|..]);
    assert d.log == c.log + d.log[|c.log|..];
  }

  lemma ConfirmsGrow(c: Client, d: Client, acted: seq<Payload>, ids: set<MessageId>)
    requires Adds(c, d, acted, ids) && c.received + ids <= d.received
    requires forall i :: 0 <= i < |c.log| && IsConfirm(c.log[i]) ==> c.log[i].p.id in c.received
    ensures forall i :: 0 <= i < |d.log| && IsConfirm(d.log[i]) ==> d.log[i].p.id in d.received
  {
    hide Acted, IsConfirm;
    assert forall i :: 0 <= i < |c.log| ==> d.log[i] == c.log[i];
  }

  /** A new payload can only be the one that comes next. */
  lemma NextInOrder(l: Link, d: Client, p: Payload)
    requires InOrder(l) && Counted(l.client) && IdsCount(l.sender.sent) && |l.sender.sent| <= IDS
    requires p in l.sender.sent && d.received == l.client.received + {p.id}
    requires Adds(l.client, d, if p.id in l.client.received then [] else [p], {p.id})
    ensures InOrder(l.(client := d)) && Counted(d)
  {
    hide Acted, Adds;
    var acted, sent := Acted(l.client.log), l.sender.sent;
    ActedGrows(l.client, d, if p.id in l.client.received then [] else [p], {p.id});
    ConfirmsGrow(l.client, d, if p.id in l.client.received then [] else [p], {p.id});
    var k :| 0 <= k < |sent| && sent[k] == p;
    assert p.id == k;
    if p.id !in l.client.received {
      assert k == |acted| == |sent| - 1;
      assert acted + [p] == sent;
    } else {
      assert acted + [] == acted;
    }
  }

  lemma SameInOrder(l: Link, d: Client)
    requires InOrder(l) && Counted(l.client)
    requires Adds(l.client, d, [], l.client.received) && d.received == l.client.received
    ensures InOrder(l.(client := d)) && Counted(d)
  {
    hide Acted, Adds;
    ActedGrows(l.client, d, [], l.client.received);
    ConfirmsGrow(l.client, d, [], l.client.received);
    assert Acted(l.client.log) + [] == Acted(l.client.log);
  }

  lemma OrderlyStep(c: Client, e: Event)
    requires Orderly(c) && Faultless(e)
    ensures Orderly(Step(c, e))
  {
    hide Settled, Timer, AuthFirst, Once, Confirms, Answered, Delivery.Ledger, Step;
    StepSettled(c, e);
    TimerStep(c, e);
    KeptStep(c, e);
    StepMode(c, e);
    Delivery.LedgerStep(c, e);
  }

  lemma ClientSound(l: Link, e: Event)
    requires Sound(l) && Possible(l, ClientMove(e))
    ensures Sound(l.(client := Step(l.client, e)))
  {
    hide Settled, Timer, Kept, Delivery.Ledger, Step, Adds, InOrder, Counted, Sendable, IdsCount, Receive;
    var c, d := l.client, Step(l.client, e);
    OrderlyStep(c, e);
    StepAdds(c, e, l.sender);
    if |l.sender.sent| <= IDS {
      if Takes(c, e) {
        BroughtIs(c, l.sender, e.packet);
        NextInOrder(l, d, Receive(UDP, e.packet).p);
      } else {
        SameInOrder(l, d);
      }
    }
  }

  lemma PushSound(l: Link, body: Body)
    requires Sound(l) && Possible(l, Push(body))
    ensures Sound(Next(l, Push(body)))
  {
    hide Orderly, Acted, WellFormed, Counted;
  }

  /** A CONFIRM on the wire is one the client sent. */
  lemma CollectedConfirm(c: Client, bytes: seq<byte>, id: MessageId) returns (i: nat)
    requires Delivery.Ledger(c) && Delivery.OnTheWire(c, bytes) && Udp.Decode(bytes) == Udp.Good(Payload(id, Confirm))
    ensures i < |c.log| && IsConfirm(c.log[i]) && c.log[i].p.id == id
  {
    hide Udp.Decode, Udp.Datagram, WellFormed, Delivery.Numbered;
    i :| 0 <= i < |c.log| && c.log[i].Sent? && c.log[i].bytes == bytes;
    var p := c.log[i].p;
    assert Delivery.Backed(c.log[i], Issues(c.log));
    var cut :| bytes == Udp.Datagram(p, cut);
    if p in Issues(c.log) {
      var k :| 0 <= k < |Issues(c.log)| && Issues(c.log)[k] == p;
    }
    assert Delivery.LegalIssue(p);
    Delivery.DecodesTo(p, cut, Payload(id, Confirm));
    Delivery.SameType(p.body, Confirm);
  }

  lemma CollectSound(l: Link, bytes: seq<byte>)
    requires Sound(l) && Possible(l, Collect(bytes))
    ensures Sound(l.(sender := Hears(l.sender, bytes)))
  {
    hide Settled, Timer, Kept, Delivery.Ledger, Delivery.OnTheWire, Udp.Decode, Acted, Sendable;
    var sent := l.sender.sent;
    if |sent| <= IDS && Hears(l.sender, bytes) != l.sender {
      var id := sent[|sent| - 1].id;
      var i := CollectedConfirm(l.client, bytes, id);
      assert id == |sent| - 1;
    }
  }

  lemma InitSound(limit: nat)
    ensures Sound(Link(Init(UDP, limit), Sender([], true)))
  {
    hide Orderly, Acted;
    InitOrderly(limit);
    NothingActed();
  }

  lemma NothingActed()
    ensures Acted([]) == []
  {
  }

  lemma InitOrderly(limit: nat)
    ensures Orderly(Init(UDP, limit))
  {
    hide Kept, Timer, Settled, Delivery.Ledger;
    RunNone(Init(UDP, limit));
    KeptRun(UDP, limit, []);
    RunSettled(UDP, limit, []);
    InitLedger(limit);
  }

  lemma InitLedger(limit: nat)
    ensures Delivery.Ledger(Init(UDP, limit))
  {
    assert Issues([]) == [];
  }

  lemma {:induction false} PlaySound(limit: nat, ms: seq<Move>)
    ensures Sound(Play(limit, ms))
  {
    hide Sound, Step, Hears, Possible;
    if ms == [] {
      InitSound(limit);
    } else {
      var init, m := ms[..|ms| - 1], ms[|ms| - 1];
      PlaySound(limit, init);
      var l := Play(limit, init);
      if Possible(l, m) {
        match m
        case ClientMove(e) => ClientSound(l, e);
        case Push(body) => PushSound(l, body);
        case Collect(bytes) => CollectSound(l, bytes);
      }
    }
  }

  // ---------------------------------------------------------------- the statement

  /**
   However datagrams are lost, repeated and reordered in either direction, the client acts on the
   server's payloads in order, on each once, lacking at most the last, and on all once that is confirmed.
   */
  lemma OrderedReception(limit: nat, ms: seq<Move>)
    requires |Play(limit, ms).sender.sent| <= 0x1_0000
    ensures InOrder(Play(limit, ms))
  {
    hide Play, Orderly, Counted, InOrder;
    PlaySound(limit, ms);
  }

  // ---------------------------------------------------------------- and its bound

  lemma PlayThen(limit: nat, ms: seq<Move>, m: Move)
    ensures Play(limit, ms + [m]) == Next(Play(limit, ms), m)
  {
    assert (ms + [m])[..|ms|] == ms;
  }

  lemma ThenClient(limit: nat, ms: seq<Move>, e: Event)
    requires Possible(Play(limit, ms), ClientMove(e))
    ensures Play(limit, ms + [ClientMove(e)]) == Play(limit, ms).(client := Step(Play(limit, ms).client, e))
  {
    PlayThen(limit, ms, ClientMove(e));
  }

  /** After `n` payloads, all confirmed. */
  predicate After(l: Link, n: nat) {
    var c := l.client;
    && Free(c) && c.state == StateStart && l.sender.acked && |l.sender.sent| == n
    && (forall id: MessageId :: id in c.received <==> id < n)
    && |Acted(c.log)| == if n <= IDS then n else IDS
  }

  /** The client at the loop test reads the payload, and that is all. */
  function Read(c: Client, p: Payload): Client {
    var confirm := Sent(Payload(p.id, Confirm), Udp.Encode(Payload(p.id, Confirm)));
    if p.id in c.received then c.(log := c.log + [confirm])
    else c.(received := c.received + {p.id}, log := c.log + [confirm] + [Processed(p, c.state)])
  }

  lemma ReadRound(c: Client, p: Payload)
    requires Free(c) && c.state == StateStart && p.body.Message? && WellFormed(p.body)
    ensures var a := Step(Step(c, Enter), Ready(true, false));
            Step(Step(a, Socket(Arrived(Udp.Encode(p), 0), NO_FAULTS)), Finish(NO_FAULTS)) == Read(c, p)
  {
    hide Receive, Udp.Encode, WellFormed, ClientSend, SendMalformed;
    DecodesTo(Arrived(Udp.Encode(p), 0), p);
    EncodeFits(p);
    var a := c.(control := Handling(true, false));
    assert Step(Step(c, Enter), Ready(true, false)) == a;
    assert HandleSocket(c.(control := Handling(false, false)), Got(p), NO_FAULTS)
        == Read(c, p).(control := Handling(false, false));
  }

  lemma EncodeFits(p: Payload)
    requires WellFormed(p.body)
    ensures |Udp.Encode(p)| <= BYTES_SIZE
  {
    hide Udp.Encode, Udp.Decode, WellFormed;
    Udp.RoundTrip(p);
  }

  lemma Acknowledged(s: Sender, id: MessageId)
    requires s.sent != [] && s.sent[|s.sent| - 1].id == id
    ensures Hears(s, Udp.Encode(Payload(id, Confirm))) == s.(acked := true)
  {
    hide Udp.Encode, Udp.Decode;
    Udp.RoundTrip(Payload(id, Confirm));
  }

  /** One more payload pushed, read and confirmed. */
  lemma Round(limit: nat, ms: seq<Move>) returns (ms': seq<Move>)
    requires var l := Play(limit, ms); Free(l.client) && l.client.state == StateStart && l.sender.acked
    ensures var l := Play(limit, ms);
            var p := Payload(|l.sender.sent| % IDS, Message(LETTER, LETTER));
            Play(limit, ms') == Link(Read(l.client, p), Sender(l.sender.sent + [p], true))
  {
    hide Play, Step, Receive, Udp.Encode, Hears, WellFormed;
    var l := Play(limit, ms);
    var body := Message(LETTER, LETTER);
    var p := Payload(|l.sender.sent| % IDS, body);
    var packet := Arrived(Udp.Encode(p), 0);
    LetterFits();
    ReadRound(l.client, p);
    PlayThen(limit, ms, Push(body));
    ms' := ms + [Push(body)];
    var s := Sender(l.sender.sent + [p], false);
    assert p in s.sent && Brought(l.client, s, packet);
    assert Brought(l.client.(control := Handling(true, false)), s, packet);
    ThenClient(limit, ms', Enter);
    ms' := ms' + [ClientMove(Enter)];
    ThenClient(limit, ms', Ready(true, false));
    ms' := ms' + [ClientMove(Ready(true, false))];
    ThenClient(limit, ms', Socket(packet, NO_FAULTS));
    ms' := ms' + [ClientMove(Socket(packet, NO_FAULTS))];
    ThenClient(limit, ms', Finish(NO_FAULTS));
    ms' := ms' + [ClientMove(Finish(NO_FAULTS))];
    var bytes := Udp.Encode(Payload(p.id, Confirm));
    ReadSends(l.client, p);
    Acknowledged(s, p.id);
    PlayThen(limit, ms', Collect(bytes));
    ms' := ms' + [Collect(bytes)];
  }

  lemma LetterFits()
    ensures WellFormed(Message(LETTER, LETTER))
  {
    LetterTypable();
  }

  lemma ReadSends(c: Client, p: Payload)
    ensures Delivery.OnTheWire(Read(c, p), Udp.Encode(Payload(p.id, Confirm)))
  {
    hide Udp.Encode;
    assert Read(c, p).log[|c.log|] == Sent(Payload(p.id, Confirm), Udp.Encode(Payload(p.id, Confirm)));
  }

  lemma ReadActs(c: Client, p: Payload)
    ensures |Acted(Read(c, p).log)| == |Acted(c.log)| + if p.id in c.received then 0 else 1
  {
    hide Udp.Encode, Acted;
    TakeAdds(c, Read(c, p), p, p.id !in c.received, c.state);
    ActedGrows(c, Read(c, p), if p.id in c.received then [] else [p], {p.id});
  }

  lemma OneMore(limit: nat, ms: seq<Move>, n: nat) returns (ms': seq<Move>)
    requires After(Play(limit, ms), n)
    ensures After(Play(limit, ms'), n + 1)
  {
    hide Play, Acted, Udp.Encode;
    var l := Play(limit, ms);
    ms' := Round(limit, ms);
    ReadActs(l.client, Payload(n % IDS, Message(LETTER, LETTER)));
  }

  lemma {:induction false} Greet(limit: nat, n: nat) returns (ms: seq<Move>)
    ensures After(Play(limit, ms), n)
  {
    if n == 0 {
      ms := [];
      assert Acted([]) == [];
    } else {
      hide Play, After;
      ms := Greet(limit, n - 1);
      ms := OneMore(limit, ms, n - 1);
    }
  }

  /** Reception is in order in all plays with at most `n` payloads exactly when their IDs cannot come back. */
  lemma BoundIsExact(limit: nat, n: nat)
    ensures (forall ms :: |Play(limit, ms).sender.sent| <= n ==> InOrder(Play(limit, ms))) <==> n <= 0x1_0000
  {
    if n <= 0x1_0000 {
      forall ms | |Play(limit, ms).sender.sent| <= n
        ensures InOrder(Play(limit, ms))
      {
        OrderedReception(limit, ms);
      }
    } else {
      var ms := Greet(limit, n);
      assert !InOrder(Play(limit, ms));
    }
  }

  // ---------------------------------------------------------------- malformed datagrams with a fresh ID

  /**
   Why malformed datagrams are restricted.  The server has sent a MSG with ID 0, and a malformed datagram
   with that ID is read instead: its CONFIRM makes the server take the MSG for received.
   */
  lemma GarbageAcknowledges(limit: nat)
    ensures var ms := [Push(Message(LETTER, LETTER))] + [ClientMove(Enter)] + [ClientMove(Ready(true, false))];
            var l := Play(limit, ms);
            var e := Socket(CUT_MESSAGE, NO_FAULTS);
            var bytes := Udp.Encode(Payload(0, Confirm));
            && Enabled(l.client, e) && Faultless(e) && Delivery.OnTheWire(Step(l.client, e), bytes)
            && !InOrder(Link(Step(l.client, e), Hears(l.sender, bytes)))
  {
    hide Play, Step, Receive, Udp.Encode, Hears, WellFormed, Acted;
    var body := Message(LETTER, LETTER);
    var c := Init(UDP, limit);
    var p := Payload(0, body);
    LetterFits();
    PlayNone(limit);
    PlayThen(limit, [], Push(body));
    assert [] + [Push(body)] == [Push(body)];
    var ms := [Push(body)];
    ThenClient(limit, ms, Enter);
    ms := ms + [ClientMove(Enter)];
    ThenClient(limit, ms, Ready(true, false));
    FirstPoll(c);
    GarbageStep(c.(control := Handling(true, false)));
    Acknowledged(Sender([p], false), 0);
    assert [] + [p] == [p];
    var l := Play(limit, ms + [ClientMove(Ready(true, false))]);
    assert l == Link(c.(control := Handling(true, false)), Sender([p], false));
    assert Enabled(l.client, Socket(CUT_MESSAGE, NO_FAULTS));
  }

  lemma PlayNone(limit: nat)
    ensures Play(limit, []) == Link(Init(UDP, limit), Sender([], true))
  {
  }

  lemma FirstPoll(c: Client)
    requires c.control == Checking && c.state == StateStart
    ensures Step(Step(c, Enter), Ready(true, false)) == c.(control := Handling(true, false))
  {
  }

  lemma GarbageStep(c: Client)
    requires c.mode == UDP && c.confirmed && !c.error && c.log == [] && c.control == Handling(true, false)
    ensures var d := Step(c, Socket(CUT_MESSAGE, NO_FAULTS));
            Delivery.OnTheWire(d, Udp.Encode(Payload(0, Confirm))) && Acted(d.log) == []
  {
    hide HandleSocket, Receive, Adds, Acted, Udp.Encode;
    CutMessageIsBad();
    var b := c.(control := Handling(false, false));
    var d := HandleSocket(b, Reception.Bad(MESSAGE, 0), NO_FAULTS);
    BadAdds(b, Reception.Bad(MESSAGE, 0));
    ActedGrows(b, d, [], {0});
    NothingActed();
    BadConfirms(b);
    assert d.log[0].bytes == Udp.Encode(Payload(0, Confirm));
  }

  lemma BadConfirms(c: Client)
    requires c.mode == UDP && c.confirmed && !c.error && c.log == []
    ensures var d := HandleSocket(c, Reception.Bad(MESSAGE, 0), NO_FAULTS);
            |d.log| > 0 && d.log[0] == Sent(Payload(0, Confirm), Udp.Encode(Payload(0, Confirm)))
  {
    hide SendMalformed;
    var p := Payload(0, Confirm);
    var b := Transmit(c.(error := true), p, false);
    assert Udp.Header(p) + [] == Udp.Header(p);
    assert b.log == [Sent(p, Udp.Encode(p))];
    Coherence.MalformedLog(b.(error := false), NO_FAULTS);
  }
}
