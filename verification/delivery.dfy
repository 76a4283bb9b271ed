/**
 The client over UDP against a network that loses, duplicates and reorders datagrams, and a server
 that confirms only what it has received: chat payloads arrive in the order they were issued.
 */
module Delivery {
  import opened Window
  import opened Payloads
  import opened Protocol
  import opened Phases
  import opened StopAndWait
  import Commands
  import Udp

  // ---------------------------------------------------------------- what the trace holds

  /** The k-th payload issued has ID k modulo 2^16, and the last one is outstanding. */
  ghost predicate Numbered(c: Client) {
    var ps := Issues(c.log);
    && |ps| == c.created
    && (forall k :: 0 <= k < |ps| ==> ps[k].id == k % 0x1_0000)
    && (c.created > 0 ==> c.current == ps[|ps| - 1])
  }

  predicate LegalIssue(p: Payload) {
    IsChat(p.body) ==> WellFormed(p.body)
  }

  /** Everything handed to the socket but a CONFIRM is an issued payload, whole or cut to its header. */
  ghost predicate Backed(e: Entry, ps: seq<Payload>) {
    e.Sent? ==> (e.p.body.Confirm? || e.p in ps) && exists cut :: e.bytes == Udp.Datagram(e.p, cut)
  }

  ghost predicate Ledger(c: Client) {
    && Numbered(c)
    && (forall k :: 0 <= k < |Issues(c.log)| ==> LegalIssue(Issues(c.log)[k]))
    && (forall i :: 0 <= i < |c.log| ==> Backed(c.log[i], Issues(c.log)))
  }

  /** The ledger looks at the trace, the counter and the outstanding payload only. */
  lemma LedgerFrame(c: Client, d: Client)
    requires Ledger(c) && d.log == c.log && d.created == c.created && d.current == c.current
    ensures Ledger(d)
  {
  }

  lemma IssuedBacked(p: Payload, ps: seq<Payload>)
    ensures Backed(Issued(p), ps)
  {
  }

  lemma BackedMore(e: Entry, ps: seq<Payload>, p: Payload)
    requires Backed(e, ps)
    ensures Backed(e, ps + [p])
  {
  }

  lemma IssuesGrow(c: Client, body: Body)
    ensures var p := Payload(c.created % 0x1_0000, body);
            Issues(Issue(c, body).log) == Issues(c.log) + [p]
  {
    var log := Issue(c, body).log;
    assert log[..|log| - 1] == c.log;
  }

  lemma NumberedIssue(c: Client, body: Body)
    requires Numbered(c)
    ensures Numbered(Issue(c, body))
  {
    hide Issues;
    IssuesGrow(c, body);
  }

  lemma LegalGrow(ps: seq<Payload>, p: Payload)
    requires LegalIssue(p) && forall k :: 0 <= k < |ps| ==> LegalIssue(ps[k])
    ensures forall k :: 0 <= k < |ps + [p]| ==> LegalIssue((ps + [p])[k])
  {
    hide LegalIssue;
  }

  lemma BackedGrow(log: seq<Entry>, ps: seq<Payload>, p: Payload)
    requires forall i :: 0 <= i < |log| ==> Backed(log[i], ps)
    ensures forall i :: 0 <= i < |log + [Issued(p)]| ==> Backed((log + [Issued(p)])[i], ps + [p])
  {
    hide Backed;
    IssuedBacked(p, ps + [p]);
    forall i | 0 <= i < |log + [Issued(p)]|
      ensures Backed((log + [Issued(p)])[i], ps + [p])
    {
      if i < |log| {
        BackedMore(log[i], ps, p);
      }
    }
  }

  lemma LedgerIssue(c: Client, body: Body)
    requires Ledger(c) && (IsChat(body) ==> WellFormed(body))
    ensures Ledger(Issue(c, body))
  {
    hide Issues, LegalIssue, Backed, Numbered, IsChat, WellFormed;
    var p := Payload(c.created % 0x1_0000, body);
    IssuesGrow(c, body);
    Legal(p);
    NumberedIssue(c, body);
    LegalGrow(Issues(c.log), p);
    BackedGrow(c.log, Issues(c.log), p);
  }

  lemma Legal(p: Payload)
    ensures LegalIssue(p) <==> (IsChat(p.body) ==> WellFormed(p.body))
  {
  }

  /** An entry that issues nothing. */
  lemma LedgerAdd(c: Client, d: Client, e: Entry)
    requires Ledger(c) && d.log == c.log + [e] && d.created == c.created && d.current == c.current
    requires !e.Issued? && Backed(e, Issues(c.log))
    ensures Ledger(d)
  {
    assert d.log[..|d.log| - 1] == c.log;
    assert Issues(d.log) == Issues(c.log) + [];
    assert Issues(c.log) + [] == Issues(c.log);
  }

  lemma LedgerTransmit(c: Client, p: Payload, fault: bool)
    requires Ledger(c) && c.mode == UDP && (p.body.Confirm? || (p == c.current && c.created > 0))
    ensures Ledger(Transmit(c, p, fault))
  {
    var d := Transmit(c, p, fault);
    hide Udp.Datagram, Ledger;
    if fault {
      LedgerFrame(c, d);
    } else {
      CurrentBacked(c, p);
      LedgerAdd(c, d, Sent(p, Udp.Datagram(p, c.error)));
    }
  }

  lemma CurrentBacked(c: Client, p: Payload)
    requires Ledger(c) && (p.body.Confirm? || (p == c.current && c.created > 0))
    ensures Backed(Sent(p, Udp.Datagram(p, c.error)), Issues(c.log))
  {
  }

  lemma LedgerSend(c: Client, body: Body, f: Faults)
    requires Ledger(c) && c.mode == UDP && (IsChat(body) ==> WellFormed(body))
    ensures Ledger(ClientSend(c, body, f))
  {
    hide Ledger, Transmit;
    var a := Issue(c, body);
    LedgerIssue(c, body);
    LedgerTransmit(a, a.current, f.first);
    var b := Transmit(a, a.current, f.first);
    var _ := TransmitShape(a, a.current, f.first);
    var s := SendOrErr(c, body, f);
    if b.error {
      var b' := b.(error := false);
      LedgerFrame(b, b');
      LedgerIssue(b', Err(c.name, SendFailedText()));
      var e := Issue(b', Err(c.name, SendFailedText()));
      LedgerTransmit(e, e.current, f.second);
      LedgerFrame(Transmit(e, e.current, f.second), s);
    }
    LedgerFrame(s, ClientSend(c, body, f));
  }

  lemma LedgerMalformed(c: Client, f: Faults)
    requires Ledger(c) && c.mode == UDP
    ensures Ledger(SendMalformed(c, f))
  {
    hide Ledger, ClientSend;
    LedgerSend(c, Err(c.name, MalformedText()), f);
    LedgerFrame(ClientSend(c, Err(c.name, MalformedText()), f), SendMalformed(c, f));
  }

  lemma LedgerBye(c: Client, f: Faults)
    requires Ledger(c) && c.mode == UDP
    ensures Ledger(ClientSend(c, Body.Bye, f)) && Ledger(ClientSend(c, Body.Bye, f).(state := StateEnd))
    ensures Ledger(ClientSend(c.(state := StateEnd), Body.Bye, f))
  {
    hide Ledger, ClientSend;
    LedgerSend(c, Body.Bye, f);
    LedgerFrame(ClientSend(c, Body.Bye, f), ClientSend(c, Body.Bye, f).(state := StateEnd));
    LedgerFrame(c, c.(state := StateEnd));
    LedgerSend(c.(state := StateEnd), Body.Bye, f);
  }

  lemma LedgerProcess(c: Client, p: Payload, f: Faults)
    requires Ledger(c) && c.mode == UDP && !p.body.Confirm?
    ensures Ledger(Process(c, p, f))
  {
    var d := c.(received := c.received + {p.id}, log := c.log + [Processed(p, c.state)]);
    hide Ledger, ClientSend, SendMalformed, Issues;
    LedgerAdd(c, d, Processed(p, c.state));
    match p.body
    case Auth(_, _, _) => LedgerMalformed(d, f);
    case Join(_, _) => LedgerMalformed(d, f);
    case Err(_, _) => LedgerBye(d, f);
    case Bye =>
      LedgerBye(d, f);
      LedgerFrame(d, d.(state := StateEnd));
    case Reply(result, _, _) => LedgerFrame(d, HandleReply(d, result));
    case Message(_, _) =>
  }

  lemma LedgerSocket(c: Client, rx: Reception, f: Faults)
    requires Ledger(c) && c.mode == UDP
    ensures Ledger(HandleSocket(c, rx, f))
  {
    hide Ledger, Transmit, SendMalformed, Process;
    if rx.Ignored? {
      LedgerFrame(c, c.(error := false));
    } else {
      var code := if rx.Got? then TypeCode(rx.p.body) else rx.code;
      var id := if rx.Got? then rx.p.id else rx.id;
      var a := c.(error := c.error || rx.Bad?);
      LedgerFrame(c, a);
      if code == CONFIRM || a.confirmed {
        LedgerTransmit(a, Payload(id, Confirm), f.confirm);
        var _ := TransmitShape(a, Payload(id, Confirm), f.confirm);
        var b := if code != CONFIRM then Transmit(a, Payload(id, Confirm), f.confirm) else a;
        if b.error {
          LedgerFrame(b, b.(error := false));
          LedgerMalformed(b.(error := false), f);
        } else if rx.Got? {
          LedgerFrame(b, HandleConfirm(b, rx.p.id));
          if !rx.p.body.Confirm? {
            LedgerProcess(b, rx.p, f);
          }
        }
      }
    }
  }

  lemma LedgerObey(c: Client, cmd: Commands.Command, f: Faults)
    requires Ledger(c) && Named(c) && c.mode == UDP && Commands.ValidCommand(cmd)
    ensures Ledger(Obey(c, cmd, f))
  {
    hide Ledger, ClientSend;
    match cmd
    case Say(text) =>
      if c.state == StateOpen {
        LedgerSend(c, Message(c.name, text), f);
      }
    case Authenticate(u, s, d) =>
      LedgerFrame(c, c.(name := d));
      LedgerSend(c.(name := d), Auth(u, d, s), f);
      var e := ClientSend(c.(name := d), Auth(u, d, s), f);
      LedgerFrame(e, e.(state := StateAuth));
    case JoinChannel(ch) =>
      if c.state == StateOpen {
        LedgerSend(c, Join(ch, c.name), f);
      }
    case Rename(d) => LedgerFrame(c, c.(name := d));
    case Help =>
    case Clear =>
    case Exit => LedgerBye(c, f);
  }

  lemma LedgerInput(c: Client, input: Input, f: Faults)
    requires Ledger(c) && Named(c) && c.mode == UDP
    ensures Ledger(HandleInput(c, input, f))
  {
    hide Ledger, ClientSend, Obey, Understand, Commands.ValidCommand;
    match input
    case Eof(tail) =>
      var c' := c.(error := c.error || |tail| > BYTES_SIZE);
      LedgerFrame(c, c');
      LedgerBye(c', f);
    case Line(text) =>
      LedgerFrame(c, c.(error := false));
      if Understand(text).Some? {
        UnderstandExact(text, Understand(text).value);
        LedgerObey(c, Understand(text).value, f);
      }
  }

  lemma LedgerStep(c: Client, e: Event)
    requires Ledger(c) && Named(c) && Timer(c) && c.mode == UDP
    ensures Ledger(Step(c, e))
  {
    hide Ledger, ClientSend, HandleSocket, HandleInput, Receive, Transmit;
    if Enabled(c, e) {
      match e
      case Socket(packet, f) =>
        var c' := c.(control := Handling(false, c.control.stdin));
        LedgerFrame(c, c');
        LedgerSocket(c', Receive(c.mode, packet), f);
      case Stdin(input, f) =>
        var c' := c.(control := Handling(c.control.socket, false));
        LedgerFrame(c, c');
        LedgerInput(c', input, f);
      case Signal(f) =>
        LedgerBye(c, f);
        LedgerFrame(c, c.(state := StateEnd));
      case PollError(f) =>
        LedgerBye(c, f);
        LedgerFrame(HandlePollError(c, f), Step(c, e));
      case Finish(f) =>
        LedgerBye(c, f);
        LedgerFrame(HandleFinish(c, f), Step(c, e));
      case Expire(f) =>
        var c' := c.(control := Checking, retries := c.retries + 1);
        LedgerFrame(c, c');
        LedgerFrame(c, c'.(state := StateEnd, control := Stopped));
        LedgerTransmit(c', c'.current, f.first);
      case Ready(_, _) => LedgerFrame(c, Step(c, e));
      case Enter => LedgerFrame(c, Step(c, e));
    }
  }

  // ---------------------------------------------------------------- the world

  /** The server: the IDs it has received, and the chat payloads in the order of their first reception. */
  datatype Server = Server(seen: set<MessageId>, heard: seq<Payload>)

  datatype World = World(client: Client, server: Server)

  datatype Move = ClientMove(e: Event) | Hear(bytes: seq<byte>)

  /** The server decodes a datagram; a new ID is noted, and its payload if it is a chat payload. */
  function Receives(s: Server, bytes: seq<byte>): Server {
    match Udp.Decode(bytes)
    case Bad(_, _) => s
    case Good(p) =>
      if p.body.Confirm? || p.id in s.seen then s
      else Server(s.seen + {p.id}, s.heard + if IsChat(p.body) then [p] else [])
  }

  ghost predicate OnTheWire(c: Client, bytes: seq<byte>) {
    exists i :: 0 <= i < |c.log| && c.log[i].Sent? && c.log[i].bytes == bytes
  }

  /**
   Anything may reach the client at any time but a CONFIRM for an ID the server has not received;
   whatever the client sent may reach the server any number of times, in any order, or never.
   */
  ghost predicate Possible(w: World, m: Move) {
    match m
    case ClientMove(e) =>
      Faultless(e) && (e.Socket? ==>
        var rx := Receive(UDP, e.packet); rx.Got? && rx.p.body.Confirm? ==> rx.p.id in w.server.seen)
    case Hear(bytes) => OnTheWire(w.client, bytes)
  }

  ghost function Next(w: World, m: Move): World {
    if !Possible(w, m) then w
    else
      match m
      case ClientMove(e) => w.(client := Step(w.client, e))
      case Hear(bytes) => w.(server := Receives(w.server, bytes))
  }

  ghost function Play(limit: nat, ms: seq<Move>): World {
    if ms == [] then World(Init(UDP, limit), Server({}, []))
    else Next(Play(limit, ms[..|ms| - 1]), ms[|ms| - 1])
  }

  // ---------------------------------------------------------------- the invariant

  /** The server has heard all chat payloads but perhaps the last;
      then that one is outstanding, or the client closes. */
  ghost predicate InOrder(w: World) {
    var chat, heard := ChatLog(w.client), w.server.heard;
    && heard <= chat && |chat| <= |heard| + 1
    && (|heard| < |chat| ==> Closing(w.client) || (w.client.current == chat[|chat| - 1] && !w.client.confirmed))
  }

  /** The IDs seen are IDs of issued payloads, and a chat payload whose ID was seen was heard. */
  ghost predicate Consistent(w: World) {
    && (forall id :: id in w.server.seen ==> id < w.client.created)
    && (forall p :: p in w.server.heard ==> p.id in w.server.seen)
    && (forall p :: p in ChatLog(w.client) && p.id in w.server.seen ==> p in w.server.heard)
  }

  ghost predicate Sound(w: World) {
    && w.client.mode == UDP && Ledger(w.client) && Settled(w.client) && Named(w.client) && Timer(w.client)
    && (w.client.created <= 0x1_0000 ==> InOrder(w) && Consistent(w))
  }

  // ---------------------------------------------------------------- chat payloads and their IDs

  lemma {:induction false} ChatsFrom(ps: seq<Payload>, p: Payload)
    ensures p in Chats(ps) <==> p in ps && IsChat(p.body)
  {
    if ps != [] {
      var init, last := ps[..|ps| - 1], ps[|ps| - 1];
      ChatsFrom(init, p);
      assert ps == init + [last];
    }
  }

  /** While the counter has not wrapped, IDs grow along the chat payloads. */
  lemma {:induction false} ChatsAscend(ps: seq<Payload>)
    requires |ps| <= 0x1_0000 && forall k :: 0 <= k < |ps| ==> ps[k].id == k
    ensures forall i, j :: 0 <= i < j < |Chats(ps)| ==> Chats(ps)[i].id < Chats(ps)[j].id
    ensures forall i :: 0 <= i < |Chats(ps)| ==> Chats(ps)[i].id < |ps|
  {
    if ps != [] {
      ChatsAscend(ps[..|ps| - 1]);
    }
  }

  /** Within one round of the counter an ID belongs to one issued payload. */
  lemma SameId(c: Client, p: Payload, q: Payload)
    requires Numbered(c) && c.created <= 0x1_0000 && p in Issues(c.log) && q in Issues(c.log) && p.id == q.id
    ensures p == q
  {
    var ps := Issues(c.log);
    assert |ps| == c.created && forall k :: 0 <= k < |ps| ==> ps[k].id == k % 0x1_0000;
    hide Issues, Numbered;
    var i :| 0 <= i < |ps| && ps[i] == p;
    var j :| 0 <= j < |ps| && ps[j] == q;
    assert i == i % 0x1_0000 == j % 0x1_0000 == j;
  }

  /** The chat payload that was not heard is the last one. */
  lemma NextHeard(w: World, p: Payload)
    requires Numbered(w.client) && w.client.created <= 0x1_0000 && InOrder(w) && Consistent(w)
    requires p in ChatLog(w.client) && p.id !in w.server.seen
    ensures w.server.heard + [p] == ChatLog(w.client)
  {
    var chat, heard := ChatLog(w.client), w.server.heard;
    var i :| 0 <= i < |chat| && chat[i] == p;
    assert forall j :: 0 <= j < |heard| ==> chat[j] == heard[j];
    assert p !in heard;
    assert chat[..|heard|] == heard;
  }

  // ---------------------------------------------------------------- the server's move

  lemma DecodesTo(p: Payload, cut: bool, q: Payload)
    requires Udp.Decode(Udp.Datagram(p, cut)) == Udp.Good(q) && LegalIssue(p)
    ensures TypeCode(q.body) == TypeCode(p.body) && q.id == p.id
    ensures IsChat(q.body) ==> p == q
  {
    hide Udp.Decode, Udp.Text, WellFormed;
    var d := Udp.Datagram(p, cut);
    Udp.DecodedHeader(d, q);
    assert d[0] == TypeCode(p.body) && d[1] == p.id / 256 && d[2] == p.id % 256;
    SameType(p.body, q.body);
    if IsChat(p.body) {
      Udp.HeaderOnly(p);
      Udp.RoundTrip(p);
    }
  }

  lemma SameType(a: Body, b: Body)
    requires TypeCode(a) == TypeCode(b)
    ensures IsChat(a) == IsChat(b) && a.Confirm? == b.Confirm?
  {
  }

  /** A datagram of the client decodes to the issued payload it was made from, or to no chat payload. */
  lemma WhatIsHeard(c: Client, bytes: seq<byte>, q: Payload) returns (p: Payload)
    requires Ledger(c) && OnTheWire(c, bytes) && Udp.Decode(bytes) == Udp.Good(q) && !q.body.Confirm?
    ensures p in Issues(c.log) && p.id == q.id && IsChat(p.body) == IsChat(q.body)
    ensures IsChat(q.body) ==> p == q
  {
    hide Udp.Decode, Udp.Datagram, WellFormed, Numbered;
    var i :| 0 <= i < |c.log| && c.log[i].Sent? && c.log[i].bytes == bytes;
    p := c.log[i].p;
    assert Backed(c.log[i], Issues(c.log));
    var cut :| bytes == Udp.Datagram(p, cut);
    if p in Issues(c.log) {
      var k :| 0 <= k < |Issues(c.log)| && Issues(c.log)[k] == p;
    }
    assert LegalIssue(p);
    DecodesTo(p, cut, q);
    SameType(p.body, q.body);
  }

  lemma HearSound(w: World, bytes: seq<byte>)
    requires Sound(w) && OnTheWire(w.client, bytes)
    ensures Sound(w.(server := Receives(w.server, bytes)))
  {
    var c, s := w.client, w.server;
    if c.created <= 0x1_0000 && Udp.Decode(bytes).Good? {
      var q := Udp.Decode(bytes).p;
      if !q.body.Confirm? && q.id !in s.seen {
        var p := WhatIsHeard(c, bytes, q);
        hide Ledger, Settled, Timer, Udp.Decode, Named;
        assert Numbered(c) by {
          LedgerNumbered(c);
        }
        IdBelow(c, p);
        NewlyHeard(w, p, q);
      }
    }
  }

  lemma LedgerNumbered(c: Client)
    requires Ledger(c)
    ensures Numbered(c)
  {
  }

  lemma IdBelow(c: Client, p: Payload)
    requires Numbered(c) && c.created <= 0x1_0000 && p in Issues(c.log)
    ensures p.id < c.created
  {
    var k :| 0 <= k < |Issues(c.log)| && Issues(c.log)[k] == p;
  }

  /** A new ID reaches the server: a chat payload is the one missing, any other leaves the record alone. */
  lemma NewlyHeard(w: World, p: Payload, q: Payload)
    requires Numbered(w.client) && w.client.created <= 0x1_0000 && InOrder(w) && Consistent(w)
    requires p in Issues(w.client.log) && p.id == q.id && q.id !in w.server.seen && q.id < w.client.created
    requires IsChat(p.body) == IsChat(q.body) && (IsChat(q.body) ==> p == q)
    ensures var s' := Server(w.server.seen + {q.id}, w.server.heard + if IsChat(q.body) then [q] else []);
            InOrder(w.(server := s')) && Consistent(w.(server := s'))
  {
    var c, s := w.client, w.server;
    var s' := Server(s.seen + {q.id}, s.heard + if IsChat(q.body) then [q] else []);
    var ps := Issues(c.log);
    ChatsFrom(ps, q);
    if IsChat(q.body) {
      NextHeard(w, q);
    } else {
      assert s'.heard == s.heard;
    }
    forall r | r in Chats(ps) && r.id in s'.seen
      ensures r in s'.heard
    {
      ChatsFrom(ps, r);
      if r.id == q.id {
        SameId(c, r, p);
      }
    }
  }

  // ---------------------------------------------------------------- the client's move

  lemma ClientSound(w: World, e: Event)
    requires Sound(w) && Possible(w, ClientMove(e))
    ensures Sound(w.(client := Step(w.client, e)))
  {
    var c := w.client;
    var d := Step(c, e);
    StepWaits(c, e);
    LedgerStep(c, e);
    StepSettled(c, e);
    TimerStep(c, e);
    StepMode(c, e);
    StepRank(c, e);
    hide Step, Settled, Timer, Ledger, Receive, Named;
    assert Numbered(c) && Numbered(d) by {
      LedgerNumbered(c);
      LedgerNumbered(d);
    }
    assert Named(d) by {
      SettledNamed(d);
    }
    if d.created <= 0x1_0000 {
      if Confirming(c, e) {
        MatchedSeen(w, e);
      }
      WaitsInOrder(w, d, Confirming(c, e));
    }
  }

  lemma SettledNamed(c: Client)
    requires Settled(c)
    ensures Named(c)
  {
  }

  lemma MatchedSeen(w: World, e: Event)
    requires w.client.mode == UDP && Possible(w, ClientMove(e)) && Confirming(w.client, e)
    ensures w.client.current.id in w.server.seen
  {
    hide Receive;
  }

  /** A proper prefix of payloads with growing IDs does not hold the last one. */
  lemma LastNotHeard(chat: seq<Payload>, heard: seq<Payload>)
    requires heard <= chat && |chat| == |heard| + 1
    requires forall i, j :: 0 <= i < j < |chat| ==> chat[i].id < chat[j].id
    ensures chat[|chat| - 1] !in heard
  {
    assert forall i :: 0 <= i < |heard| ==> heard[i] == chat[i];
  }

  lemma WaitsInOrder(w: World, d: Client, matched: bool)
    requires Numbered(w.client) && Numbered(d) && d.created <= 0x1_0000 && w.client.created <= d.created
    requires InOrder(w) && Consistent(w) && Waits(w.client, d, matched)
    requires matched ==> w.client.current.id in w.server.seen
    requires Closing(w.client) ==> Closing(d)
    ensures InOrder(w.(client := d)) && Consistent(w.(client := d))
  {
    hide Chats, Issues;
    var c, s := w.client, w.server;
    var chat := ChatLog(c);
    if ChatLog(d) == chat {
      ChatsAscend(Issues(c.log));
      if |s.heard| < |chat| {
        LastNotHeard(chat, s.heard);
        assert chat[|chat| - 1] in chat;
      }
    } else {
      assert s.heard == chat;
      assert d.current.id == d.created - 1;
      forall p | p in ChatLog(d) && p.id in s.seen
        ensures p in s.heard
      {
        assert p.id < c.created;
        assert p != d.current;
      }
    }
  }

  lemma {:induction false} PlaySound(limit: nat, ms: seq<Move>)
    ensures Sound(Play(limit, ms))
  {
    if ms == [] {
      InitSound(limit);
    } else {
      var init, m := ms[..|ms| - 1], ms[|ms| - 1];
      PlaySound(limit, init);
      var w := Play(limit, init);
      hide Sound, Step, Receives;
      if Possible(w, m) {
        match m
        case ClientMove(e) => ClientSound(w, e);
        case Hear(bytes) => HearSound(w, bytes);
      }
    }
  }

  lemma InitSound(limit: nat)
    ensures Sound(World(Init(UDP, limit), Server({}, [])))
  {
    assert Issues([]) == [] && Chats([]) == [];
  }

  // ---------------------------------------------------------------- the statement

  /** The server has heard the chat payloads in order, all but perhaps the last,
      and all of them when nothing is under way. */
  ghost predicate Delivered(w: World) {
    var chat, heard := ChatLog(w.client), w.server.heard;
    && heard <= chat && |chat| <= |heard| + 1
    && (w.client.confirmed && !Closing(w.client) ==> heard == chat)
  }

  /**
   However datagrams are lost, repeated and reordered, what the server has heard is a prefix of the
   AUTH, JOIN and MSG payloads the client issued, and lacks at most the last of them; none is missing
   while the client neither waits for a confirmation nor closes.
   */
  lemma OrderedDelivery(limit: nat, ms: seq<Move>)
    requires Play(limit, ms).client.created <= 0x1_0000
    ensures Delivered(Play(limit, ms))
  {
    PlaySound(limit, ms);
  }
}
