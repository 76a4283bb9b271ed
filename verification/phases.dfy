/** What every run keeps, local send failures included: the order of phases, and one action per received ID. */
module Phases {
  import opened Window
  import opened Payloads
  import opened Protocol
  import Commands
  import Udp
  import Tcp

  // ---------------------------------------------------------------- phases only go forward

  function Rank(s: State): nat {
    match s
    case StateStart => 0
    case StateNotAuth => 1
    case StateAuth => 1
    case StateOpen => 2
    case StateError => 3
    case StateEnd => 3
  }

  /** The sending of a payload with `body`, or the issue or sending of the ERR that replaces it. */
  predicate Sends(e: Entry, name: seq<byte>, body: Body) {
    (e.Sent? && e.p.body == body) || (!e.Processed? && e.p.body == Err(name, SendFailedText()))
  }

  predicate AllSend(es: seq<Entry>, name: seq<byte>, body: Body) {
    forall i :: 0 <= i < |es| ==> Sends(es[i], name, body)
  }

  /** What CONNECTION.send can change: the trace and the error. */
  lemma TransmitShape(c: Client, p: Payload, fault: bool) returns (sent: seq<Entry>)
    ensures var d := Transmit(c, p, fault); d == c.(error := d.error, log := c.log + sent) && (c.error ==> d.error)
    ensures |sent| <= 1 && forall i :: 0 <= i < |sent| ==> sent[i].Sent? && sent[i].p == p
    ensures c.mode == UDP && !Transmit(c, p, fault).error ==> |sent| == 1
  {
    var d := Transmit(c, p, fault);
    if d.log == c.log {
      sent := [];
      assert c.log + [] == c.log;
    } else {
      sent := [d.log[|c.log|]];
    }
  }

  /** The fields no send touches, and where it may move the state. */
  predicate Framed(c: Client, d: Client) {
    && d.mode == c.mode && d.limit == c.limit && d.control == c.control && d.name == c.name
    && d.received == c.received && d.retries == c.retries && d.created >= c.created
    && (d.state == c.state || d.state == StateError || d.state == StateEnd)
  }

  lemma SendOrErrShape(c: Client, body: Body, f: Faults) returns (rest: seq<Entry>)
    ensures var d := SendOrErr(c, body, f);
            && Framed(c, d) && d.created > c.created && d.confirmed == c.confirmed
            && d.log == c.log + ([Issued(Payload(c.created % 0x1_0000, body))] + rest)
    ensures AllSend(rest, c.name, body)
  {
    hide Transmit, SendFailedText;
    var a := Issue(c, body);
    var sent := TransmitShape(a, a.current, f.first);
    var b := Transmit(a, a.current, f.first);
    rest := sent;
    assert a.log + sent == c.log + ([Issued(a.current)] + sent);
    if b.error {
      var e := Issue(b.(error := false), Err(c.name, SendFailedText()));
      var again := TransmitShape(e, e.current, f.second);
      rest := sent + ([Issued(e.current)] + again);
      assert e.log + again == c.log + ([Issued(a.current)] + rest);
    }
  }

  /** What client_send can change: the outstanding payload, the trace, the error, and the state to Error or End. */
  lemma SendShape(c: Client, body: Body, f: Faults) returns (rest: seq<Entry>)
    ensures var d := ClientSend(c, body, f);
            && Framed(c, d) && d.created > c.created
            && (d.confirmed == c.confirmed || d.confirmed == (c.mode == TCP))
            && d.log == c.log + ([Issued(Payload(c.created % 0x1_0000, body))] + rest)
    ensures AllSend(rest, c.name, body)
  {
    rest := SendOrErrShape(c, body, f);
    hide SendOrErr;
  }

  lemma SendAny()
    ensures forall c: Client, body: Body, f: Faults :: Framed(c, ClientSend(c, body, f))
  {
    forall c: Client, body: Body, f: Faults
      ensures Framed(c, ClientSend(c, body, f))
    {
      var _ := SendShape(c, body, f);
    }
  }

  lemma AcceptRank(c: Client, p: Payload, f: Faults)
    ensures Rank(Accept(c, p, f).state) >= Rank(c.state)
  {
    hide ClientSend;
    SendAny();
  }

  lemma SocketRank(c: Client, rx: Reception, f: Faults)
    ensures Rank(HandleSocket(c, rx, f).state) >= Rank(c.state)
  {
    hide ClientSend, Accept;
    forall d: Client | d.state == c.state && rx.Got?
      ensures Rank(Accept(d, rx.p, f).state) >= Rank(c.state)
    {
      AcceptRank(d, rx.p, f);
    }
  }

  lemma InputRank(c: Client, input: Input, f: Faults)
    ensures Rank(HandleInput(c, input, f).state) >= Rank(c.state)
  {
    hide ClientSend, Understand;
    SendAny();
  }

  /** No step takes the client back to an earlier phase. */
  lemma StepRank(c: Client, e: Event)
    ensures Rank(Step(c, e).state) >= Rank(c.state)
  {
    hide ClientSend, HandleSocket, HandleInput, Receive;
    SendAny();
    if Enabled(c, e) {
      match e
      case Socket(packet, f) => SocketRank(c.(control := Handling(false, c.control.stdin)), Receive(c.mode, packet), f);
      case Stdin(input, f) => InputRank(c.(control := Handling(c.control.socket, false)), input, f);
      case _ =>
    }
  }

  // ---------------------------------------------------------------- authentication comes first

  predicate IsAuth(e: Entry) {
    e.Issued? && e.p.body.Auth?
  }

  /** A positive REPLY acted on while authenticating. */
  predicate IsGrant(e: Entry) {
    e.Processed? && e.at == StateAuth && e.p.body.Reply? && e.p.body.result
  }

  predicate IsTalk(e: Entry) {
    e.Issued? && (e.p.body.Join? || e.p.body.Message?)
  }

  ghost predicate HasAuth(log: seq<Entry>) {
    exists a :: 0 <= a < |log| && IsAuth(log[a])
  }

  /** An AUTH was issued, and later granted. */
  ghost predicate Granted(log: seq<Entry>) {
    exists a, b :: 0 <= a < b < |log| && IsAuth(log[a]) && IsGrant(log[b])
  }

  /** Before every JOIN or MSG there is an AUTH and after that its grant. */
  ghost predicate TalkAfterGrant(log: seq<Entry>) {
    forall k :: 0 <= k < |log| && IsTalk(log[k]) ==> Granted(log[..k])
  }

  // ---------------------------------------------------------------- one action per ID

  /** No ID is acted on twice, and the received IDs are the ones acted on. */
  ghost predicate Once(log: seq<Entry>, received: set<MessageId>) {
    && (forall i, j :: 0 <= i < j < |log| && log[i].Processed? && log[j].Processed? ==> log[i].p.id != log[j].p.id)
    && (forall i :: 0 <= i < |log| && log[i].Processed? ==> log[i].p.id in received)
    && (forall id :: id in received ==> exists i :: 0 <= i < |log| && log[i].Processed? && log[i].p.id == id)
  }

  predicate IsConfirm(e: Entry) {
    e.Sent? && e.p.body.Confirm?
  }

  predicate IsErr(e: Entry) {
    e.Issued? && e.p.body.Err?
  }

  /** The CONFIRM at `i` is for a received ID, or an ERR is issued right after it. */
  predicate Accounted(log: seq<Entry>, received: set<MessageId>, i: nat)
    requires i < |log|
  {
    log[i].p.id in received || (i + 1 < |log| && IsErr(log[i + 1]))
  }

  predicate Confirms(log: seq<Entry>, received: set<MessageId>) {
    forall i :: 0 <= i < |log| && IsConfirm(log[i]) ==> Accounted(log, received, i)
  }

  /** An action on a payload comes right after its CONFIRM. */
  predicate Answered(log: seq<Entry>) {
    forall i :: 0 <= i < |log| && log[i].Processed? ==> i > 0 && IsConfirm(log[i - 1]) && log[i - 1].p.id == log[i].p.id
  }

  // ---------------------------------------------------------------- appending to the trace

  predicate Quiet(es: seq<Entry>) {
    forall i :: 0 <= i < |es| ==> !es[i].Processed? && !IsConfirm(es[i])
  }

  predicate NoTalk(es: seq<Entry>) {
    forall i :: 0 <= i < |es| ==> !IsTalk(es[i])
  }

  lemma AuthAppend(log: seq<Entry>, es: seq<Entry>)
    ensures HasAuth(log) ==> HasAuth(log + es)
    ensures Granted(log) ==> Granted(log + es)
    ensures (exists i :: 0 <= i < |es| && IsAuth(es[i])) ==> HasAuth(log + es)
    ensures HasAuth(log) && es != [] && IsGrant(es[0]) ==> Granted(log + es)
  {
    var all := log + es;
    if HasAuth(log) {
      var a :| 0 <= a < |log| && IsAuth(log[a]);
      assert IsAuth(all[a]);
      if es != [] && IsGrant(es[0]) {
        assert IsGrant(all[|log|]);
      }
    }
    if Granted(log) {
      var a, b :| 0 <= a < b < |log| && IsAuth(log[a]) && IsGrant(log[b]);
      assert IsAuth(all[a]) && IsGrant(all[b]);
    }
    if i :| 0 <= i < |es| && IsAuth(es[i]) {
      assert IsAuth(all[|log| + i]);
    }
  }

  lemma TalkAppend(log: seq<Entry>, es: seq<Entry>)
    requires TalkAfterGrant(log) && (NoTalk(es) || Granted(log))
    ensures TalkAfterGrant(log + es)
  {
    var all := log + es;
    forall k | 0 <= k < |all| && IsTalk(all[k])
      ensures Granted(all[..k])
    {
      if k < |log| {
        assert all[..k] == log[..k];
      } else {
        assert !NoTalk(es) by {
          assert IsTalk(es[k - |log|]);
        }
        AuthAppend(log, es[..k - |log|]);
        assert all[..k] == log + es[..k - |log|];
      }
    }
  }

  lemma OnceAppend(log: seq<Entry>, es: seq<Entry>, received: set<MessageId>)
    requires Once(log, received) && forall i :: 0 <= i < |es| ==> !es[i].Processed?
    ensures Once(log + es, received)
  {
    var all := log + es;
    forall id | id in received
      ensures exists i :: 0 <= i < |all| && all[i].Processed? && all[i].p.id == id
    {
      var i :| 0 <= i < |log| && log[i].Processed? && log[i].p.id == id;
      assert all[i] == log[i];
    }
  }

  lemma OnceProcessed(log: seq<Entry>, e: Entry, received: set<MessageId>)
    requires Once(log, received) && e.Processed? && e.p.id !in received
    ensures Once(log + [e], received + {e.p.id})
  {
    var all := log + [e];
    forall id | id in received + {e.p.id}
      ensures exists i :: 0 <= i < |all| && all[i].Processed? && all[i].p.id == id
    {
      if id in received {
        var i :| 0 <= i < |log| && log[i].Processed? && log[i].p.id == id;
        assert all[i] == log[i];
      } else {
        assert all[|log|] == e;
      }
    }
  }

  lemma ConfirmsAppend(log: seq<Entry>, es: seq<Entry>, received: set<MessageId>, more: set<MessageId>)
    requires Confirms(log, received) && received <= more
    requires forall i :: 0 <= i < |es| && IsConfirm(es[i]) ==> Accounted(es, more, i)
    ensures Confirms(log + es, more)
  {
    var all := log + es;
    forall i | 0 <= i < |all| && IsConfirm(all[i])
      ensures Accounted(all, more, i)
    {
      if i < |log| {
        assert Accounted(log, received, i);
        assert i + 1 < |log| ==> all[i + 1] == log[i + 1];
      } else {
        assert Accounted(es, more, i - |log|);
        assert i + 1 < |all| ==> all[i + 1] == es[i + 1 - |log|];
      }
    }
  }

  lemma AnsweredAppend(log: seq<Entry>, es: seq<Entry>)
    requires Answered(log) && Answered(es)
    ensures Answered(log + es)
  {
    var all := log + es;
    forall i | 0 <= i < |all| && all[i].Processed?
      ensures i > 0 && IsConfirm(all[i - 1]) && all[i - 1].p.id == all[i].p.id
    {
      if i < |log| {
        assert all[i - 1] == log[i - 1];
      } else {
        assert all[i - 1] == es[i - 1 - |log|];
      }
    }
  }

  // ---------------------------------------------------------------- what every step keeps

  /** The display name is empty or legal, and is set once authentication has begun. */
  predicate Named(c: Client) {
    && (c.name == [] || FieldOk(DisplayName, c.name))
    && (c.state in {StateNotAuth, StateAuth, StateOpen} ==> c.name != [])
  }

  ghost predicate AuthFirst(c: Client) {
    && (c.state in {StateNotAuth, StateAuth} ==> HasAuth(c.log))
    && (c.state == StateOpen ==> Granted(c.log))
    && TalkAfterGrant(c.log)
  }

  ghost predicate Kept(c: Client) {
    && Named(c) && AuthFirst(c)
    && (c.mode == UDP ==> Once(c.log, c.received) && Confirms(c.log, c.received) && Answered(c.log))
  }

  /** The step from `c` to `d` only adds `es` to the trace. */
  ghost predicate Adds(c: Client, d: Client, es: seq<Entry>) {
    d.log == c.log + es && d.mode == c.mode && d.received == c.received
  }

  /** Entries that are neither actions on payloads nor confirmations may be added freely. */
  lemma KeptAdd(c: Client, d: Client, es: seq<Entry>)
    requires Kept(c) && Adds(c, d, es) && Quiet(es) && (NoTalk(es) || Granted(c.log)) && Named(d)
    requires d.state == c.state || d.state in {StateError, StateEnd}
             || (d.state == StateAuth && exists i :: 0 <= i < |es| && IsAuth(es[i]))
    ensures Kept(d)
  {
    AuthAppend(c.log, es);
    TalkAppend(c.log, es);
    if c.mode == UDP {
      OnceAppend(c.log, es, c.received);
      ConfirmsAppend(c.log, es, c.received, c.received);
      AnsweredAppend(c.log, es);
    }
  }

  lemma KeptSend(c: Client, body: Body, f: Faults)
    requires Kept(c) && !body.Confirm? && ((body.Join? || body.Message?) ==> c.state == StateOpen)
    ensures Kept(ClientSend(c, body, f))
    ensures body.Auth? ==> HasAuth(ClientSend(c, body, f).log)
  {
    var rest := SendShape(c, body, f);
    hide ClientSend;
    var es := [Issued(Payload(c.created % 0x1_0000, body))] + rest;
    assert Quiet(es);
    if !(body.Join? || body.Message?) {
      assert NoTalk(es);
    }
    KeptAdd(c, ClientSend(c, body, f), es);
    AuthAppend(c.log, es);
    assert body.Auth? ==> IsAuth(es[0]);
  }

  lemma KeptEnd(c: Client, s: State)
    requires Kept(c) && s in {StateError, StateEnd}
    ensures Kept(c.(state := s))
  {
  }

  /** At most the CONFIRM for `id` was sent. */
  predicate OnlyConfirms(sent: seq<Entry>, id: MessageId) {
    |sent| <= 1 && forall i :: 0 <= i < |sent| ==> sent[i].Sent? && sent[i].p == Payload(id, Confirm)
  }

  lemma ErrFollows(sent: seq<Entry>, es: seq<Entry>, id: MessageId)
    requires OnlyConfirms(sent, id) && Quiet(es) && es != [] && IsErr(es[0])
    ensures forall i :: 0 <= i < |sent + es| && IsConfirm((sent + es)[i]) ==>
              i + 1 < |sent + es| && IsErr((sent + es)[i + 1])
  {
    hide IsConfirm, IsErr;
    assert forall i :: |sent| <= i < |sent + es| ==> (sent + es)[i] == es[i - |sent|];
  }

  lemma UdpMalformed(log: seq<Entry>, sent: seq<Entry>, es: seq<Entry>, received: set<MessageId>, id: MessageId)
    requires Once(log, received) && Confirms(log, received) && Answered(log)
    requires OnlyConfirms(sent, id) && Quiet(es) && es != [] && IsErr(es[0])
    ensures var all := log + (sent + es); Once(all, received) && Confirms(all, received) && Answered(all)
  {
    OnceAppend(log, sent + es, received);
    ErrFollows(sent, es, id);
    ConfirmsAppend(log, sent + es, received, received);
    AnsweredAppend(log, sent + es);
  }

  /** A malformed payload: its CONFIRM, if one was sent, is followed by the ERR. */
  lemma KeptMalformed(c: Client, b: Client, sent: seq<Entry>, id: MessageId, f: Faults)
    requires Kept(c) && Adds(c, b, sent) && OnlyConfirms(sent, id) && b.state == c.state && b.name == c.name
    ensures Kept(SendMalformed(b, f))
  {
    hide ClientSend, MalformedText, Ascii, Once, Confirms, Answered, HasAuth, Granted, TalkAfterGrant;
    var rest := SendShape(b, Err(b.name, MalformedText()), f);
    var d := SendMalformed(b, f);
    var es := [Issued(Payload(b.created % 0x1_0000, Err(b.name, MalformedText())))] + rest;
    assert d.log == c.log + (sent + es);
    TalkAppend(c.log, sent + es);
    if c.mode == UDP {
      UdpMalformed(c.log, sent, es, c.received, id);
    }
  }

  lemma KeptDuplicate(c: Client, b: Client, sent: seq<Entry>, id: MessageId)
    requires Kept(c) && Adds(c, b, sent) && OnlyConfirms(sent, id) && b.state == c.state && b.name == c.name
    requires id in c.received || sent == []
    ensures Kept(b)
  {
    AuthAppend(c.log, sent);
    TalkAppend(c.log, sent);
    if c.mode == UDP {
      OnceAppend(c.log, sent, c.received);
      ConfirmsAppend(c.log, sent, c.received, c.received);
      AnsweredAppend(c.log, sent);
    }
  }

  lemma UdpAction(log: seq<Entry>, sent: seq<Entry>, e: Entry, received: set<MessageId>)
    requires Once(log, received) && Confirms(log, received) && Answered(log)
    requires e.Processed? && e.p.id !in received && OnlyConfirms(sent, e.p.id) && |sent| == 1
    ensures var all := log + (sent + [e]);
            Once(all, received + {e.p.id}) && Confirms(all, received + {e.p.id}) && Answered(all)
  {
    ConfirmsAppend(log, sent + [e], received, received + {e.p.id});
    AnsweredAppend(log, sent + [e]);
    hide Confirms, Answered;
    OnceAppend(log, sent, received);
    OnceProcessed(log + sent, e, received);
    assert (log + sent) + [e] == log + (sent + [e]);
  }

  lemma AuthAction(log: seq<Entry>, sent: seq<Entry>, e: Entry)
    requires TalkAfterGrant(log) && NoTalk(sent) && !IsTalk(e)
    ensures var all := log + (sent + [e]);
            && (HasAuth(log) ==> HasAuth(all)) && (Granted(log) ==> Granted(all)) && TalkAfterGrant(all)
            && (HasAuth(log) && IsGrant(e) ==> Granted(all))
  {
    hide HasAuth, Granted;
    TalkAppend(log, sent + [e]);
    AuthAppend(log, sent + [e]);
    AuthAppend(log, sent);
    AuthAppend(log + sent, [e]);
    assert (log + sent) + [e] == log + (sent + [e]);
  }

  lemma KeptAction(c: Client, b: Client, sent: seq<Entry>, p: Payload)
    requires Kept(c) && Adds(c, b, sent) && OnlyConfirms(sent, p.id) && b.state == c.state && b.name == c.name
    requires c.mode == UDP ==> p.id !in c.received && |sent| == 1
    ensures var d := b.(received := b.received + {p.id}, log := b.log + [Processed(p, b.state)]);
            Kept(d) && (IsGrant(Processed(p, b.state)) ==> Granted(d.log))
  {
    hide HasAuth, Granted, Once, Confirms, Answered, TalkAfterGrant;
    var e := Processed(p, b.state);
    assert (c.log + sent) + [e] == c.log + (sent + [e]);
    AuthAction(c.log, sent, e);
    if c.mode == UDP {
      UdpAction(c.log, sent, e, c.received);
    }
  }

  lemma KeptProcess(c: Client, b: Client, sent: seq<Entry>, p: Payload, f: Faults)
    requires Kept(c) && Adds(c, b, sent) && OnlyConfirms(sent, p.id) && b.state == c.state && b.name == c.name
    requires !p.body.Confirm? && (c.mode == UDP ==> p.id !in c.received && |sent| == 1)
    ensures Kept(Process(b, p, f))
  {
    hide ClientSend, AuthFirst, Once, Confirms, Answered, Named;
    KeptAction(c, b, sent, p);
    var d := b.(received := b.received + {p.id}, log := b.log + [Processed(p, b.state)]);
    match p.body
    case Auth(_, _, _) =>
      KeptSend(d, Err(d.name, MalformedText()), f);
      KeptEnd(ClientSend(d, Err(d.name, MalformedText()), f), StateError);
    case Join(_, _) =>
      KeptSend(d, Err(d.name, MalformedText()), f);
      KeptEnd(ClientSend(d, Err(d.name, MalformedText()), f), StateError);
    case Reply(result, _, _) => KeptReply(d, result, p, b.state);
    case Message(_, _) =>
    case Err(_, _) => KeptSend(d, Body.Bye, f); KeptEnd(ClientSend(d, Body.Bye, f), StateEnd);
    case Bye =>
      KeptSend(d, Body.Bye, f);
      KeptEnd(d, StateEnd);
      KeptEnd(ClientSend(d, Body.Bye, f), StateEnd);
  }

  lemma KeptReply(d: Client, result: bool, p: Payload, at: State)
    requires Kept(d) && p.body.Reply? && p.body.result == result && at == d.state
    requires IsGrant(Processed(p, at)) ==> Granted(d.log)
    ensures Kept(HandleReply(d, result))
  {
  }

  /** The invariant does not look at the error, the control point or the retransmission fields. */
  lemma KeptFrame(c: Client, d: Client)
    requires Kept(c) && d.log == c.log && d.mode == c.mode
             && d.received == c.received && d.name == c.name && d.state == c.state
    ensures Kept(d)
  {
  }

  lemma KeptSocket(c: Client, rx: Reception, f: Faults)
    requires Kept(c)
    ensures Kept(HandleSocket(c, rx, f))
  {
    hide Transmit, SendMalformed, Accept, Kept;
    if rx.Ignored? {
      KeptFrame(c, c.(error := false));
    } else {
      var code := if rx.Got? then TypeCode(rx.p.body) else rx.code;
      var id := if rx.Got? then rx.p.id else rx.id;
      var a := c.(error := c.error || rx.Bad?);
      KeptFrame(c, a);
      if code == CONFIRM || a.confirmed {
        var b := if code != CONFIRM then Transmit(a, Payload(id, Confirm), f.confirm) else a;
        var sent: seq<Entry> := [];
        assert c.log + [] == c.log;
        if code != CONFIRM {
          sent := TransmitShape(a, Payload(id, Confirm), f.confirm);
        }
        KeptReceived(c, b, sent, rx, id, f);
      }
    }
  }

  lemma KeptReceived(c: Client, b: Client, sent: seq<Entry>, rx: Reception, id: MessageId, f: Faults)
    requires Kept(c) && Adds(c, b, sent) && OnlyConfirms(sent, id) && b.state == c.state && b.name == c.name
    requires rx.Got? ==> id == rx.p.id && (rx.p.body.Confirm? ==> sent == [])
    requires !rx.Ignored? && (rx.Bad? ==> b.error)
    requires rx.Got? && !rx.p.body.Confirm? && c.mode == UDP && !b.error ==> |sent| == 1
    ensures b.error ==> Kept(SendMalformed(b.(error := false), f))
    ensures !b.error && rx.Got? ==> Kept(Accept(b, rx.p, f))
  {
    hide SendMalformed, Process, Kept;
    if b.error {
      KeptMalformed(c, b.(error := false), sent, id, f);
    } else if rx.Got? && !rx.p.body.Confirm? && (c.mode == TCP || rx.p.id !in c.received) {
      KeptProcess(c, b, sent, rx.p, f);
    } else if rx.Got? && rx.p.body.Confirm? {
      KeptDuplicate(c, HandleConfirm(b, id), sent, id);
    } else if rx.Got? {
      KeptDuplicate(c, b, sent, id);
    }
  }

  lemma KeptObey(c: Client, cmd: Commands.Command, f: Faults)
    requires Kept(c) && Commands.ValidCommand(cmd)
    ensures Kept(Obey(c, cmd, f))
  {
    hide ClientSend, AuthFirst, Once, Confirms, Answered;
    match cmd
    case Say(text) =>
      if c.state == StateOpen {
        KeptSend(c, Message(c.name, text), f);
      }
    case Authenticate(u, s, d) =>
      if c.state == StateStart || c.state == StateNotAuth {
        KeptAuth(c, u, s, d, f);
      }
    case JoinChannel(ch) =>
      if c.state == StateOpen {
        KeptSend(c, Join(ch, c.name), f);
      }
    case Rename(d) => KeptName(c, d);
    case Help =>
    case Clear =>
    case Exit =>
      KeptEnd(c, StateEnd);
      KeptSend(c.(state := StateEnd), Body.Bye, f);
  }

  lemma KeptName(c: Client, d: seq<byte>)
    requires Kept(c) && FieldOk(DisplayName, d)
    ensures Kept(c.(name := d))
  {
  }

  lemma KeptAuth(c: Client, u: seq<byte>, s: seq<byte>, d: seq<byte>, f: Faults)
    requires Kept(c) && FieldOk(DisplayName, d)
    ensures Kept(ClientSend(c.(name := d), Auth(u, d, s), f).(state := StateAuth))
  {
    KeptName(c, d);
    var _ := SendShape(c.(name := d), Auth(u, d, s), f);
    hide ClientSend;
    KeptSend(c.(name := d), Auth(u, d, s), f);
  }

  lemma KeptInput(c: Client, input: Input, f: Faults)
    requires Kept(c)
    ensures Kept(HandleInput(c, input, f))
  {
    hide ClientSend, AuthFirst, Once, Confirms, Answered, Obey, Understand, Commands.ValidCommand;
    match input
    case Eof(tail) =>
      var c' := c.(error := c.error || |tail| > BYTES_SIZE);
      KeptFrame(c, c');
      KeptSend(c', Body.Bye, f);
      KeptEnd(ClientSend(c', Body.Bye, f), StateEnd);
    case Line(text) =>
      KeptFrame(c, c.(error := false));
      if Understand(text).Some? {
        UnderstandExact(text, Understand(text).value);
        KeptObey(c, Understand(text).value, f);
      }
  }

  lemma KeptTransmit(c: Client, p: Payload, fault: bool)
    requires Kept(c) && !p.body.Confirm?
    ensures Kept(Transmit(c, p, fault))
  {
    var sent := TransmitShape(c, p, fault);
    hide Transmit;
    KeptAdd(c, Transmit(c, p, fault), sent);
  }

  // ---------------------------------------------------------------- the retransmission timer

  /**
   Only an unconfirmed payload is timed, and it is never a CONFIRM; over TCP nothing is unconfirmed.
   The counter is 0 when confirmed and within its limit while the loop runs.
   */
  predicate Timer(c: Client) {
    && (c.created == 0 ==> c.confirmed)
    && (c.created > 0 ==> !c.current.body.Confirm?)
    && (c.mode == TCP ==> c.confirmed)
    && (c.control.Waiting? && c.control.timed ==> !c.confirmed)
    && (c.confirmed ==> c.retries == 0)
    && c.retries <= c.limit + 1 && (c.control != Stopped ==> c.retries <= c.limit)
  }

  lemma TimerSend(c: Client, body: Body, f: Faults)
    requires Timer(c) && !body.Confirm?
    ensures Timer(ClientSend(c, body, f))
    ensures !ClientSend(c, body, f).current.body.Confirm?
  {
    hide Udp.Datagram, Udp.Encode, Tcp.Encode, Tcp.Printable;
  }

  lemma TimerSendAny()
    ensures forall c: Client, body: Body, f: Faults :: Timer(c) && !body.Confirm? ==> Timer(ClientSend(c, body, f))
  {
    forall c: Client, body: Body, f: Faults | Timer(c) && !body.Confirm?
      ensures Timer(ClientSend(c, body, f))
    {
      TimerSend(c, body, f);
    }
  }

  lemma TimerProcess(c: Client, p: Payload, f: Faults)
    requires Timer(c)
    ensures Timer(Process(c, p, f))
  {
    hide ClientSend, SendMalformed, HandleReply, Timer;
    var d := c.(received := c.received + {p.id}, log := c.log + [Processed(p, c.state)]);
    TimerFrame(c, d);
    match p.body
    case Auth(_, _, _) => TimerMalformed(d, f);
    case Join(_, _) => TimerMalformed(d, f);
    case Reply(result, _, _) => TimerReply(d, result);
    case Err(_, _) => TimerBye(d, f);
    case Bye =>
      TimerBye(d, f);
      TimerFrame(d, d.(state := StateEnd));
    case Confirm =>
    case Message(_, _) =>
  }

  /** The timer does not look at these fields. */
  lemma TimerFrame(c: Client, d: Client)
    requires Timer(c) && d.created == c.created && d.confirmed == c.confirmed && d.current == c.current
    requires d.mode == c.mode && d.control == c.control && d.retries == c.retries && d.limit == c.limit
    ensures Timer(d)
  {
  }

  lemma TimerMalformed(c: Client, f: Faults)
    requires Timer(c)
    ensures Timer(SendMalformed(c, f))
  {
    hide ClientSend, MalformedText, Timer;
    var body := Err(c.name, MalformedText());
    TimerSend(c, body, f);
    TimerFrame(ClientSend(c, body, f), SendMalformed(c, f));
  }

  lemma TimerBye(c: Client, f: Faults)
    requires Timer(c)
    ensures Timer(ClientSend(c, Body.Bye, f).(state := StateEnd))
  {
    hide ClientSend, Timer;
    TimerSend(c, Body.Bye, f);
    TimerFrame(ClientSend(c, Body.Bye, f), ClientSend(c, Body.Bye, f).(state := StateEnd));
  }

  lemma TimerReply(c: Client, result: bool)
    requires Timer(c)
    ensures Timer(HandleReply(c, result))
  {
    hide Timer;
    TimerFrame(c, HandleReply(c, result));
  }

  lemma TimerAccept(c: Client, p: Payload, f: Faults)
    requires Timer(c) && c.control.Handling?
    ensures Timer(Accept(c, p, f))
  {
    hide Process;
    TimerProcess(c, p, f);
  }

  lemma TimerSocket(c: Client, rx: Reception, f: Faults)
    requires Timer(c) && c.control.Handling?
    ensures Timer(HandleSocket(c, rx, f))
  {
    hide Transmit, SendMalformed, Accept, TypeCode, Timer;
    TimerFrame(c, c.(error := false));
    if !rx.Ignored? {
      var code := if rx.Got? then TypeCode(rx.p.body) else rx.code;
      var id := if rx.Got? then rx.p.id else rx.id;
      var a := c.(error := c.error || rx.Bad?);
      TimerFrame(c, a);
      var _ := TransmitShape(a, Payload(id, Confirm), f.confirm);
      var b := if code != CONFIRM then Transmit(a, Payload(id, Confirm), f.confirm) else a;
      TimerFrame(a, b);
      if b.error {
        TimerFrame(b, b.(error := false));
        TimerMalformed(b.(error := false), f);
      } else if rx.Got? {
        TimerAccept(b, rx.p, f);
      }
    }
  }

  lemma TimerInput(c: Client, input: Input, f: Faults)
    requires Timer(c)
    ensures Timer(HandleInput(c, input, f))
  {
    hide ClientSend, Understand;
    TimerSendAny();
  }

  lemma TimerStep(c: Client, e: Event)
    requires Timer(c)
    ensures Timer(Step(c, e))
  {
    hide ClientSend, HandleSocket, HandleInput, Receive;
    SendAny();
    TimerSendAny();
    if Enabled(c, e) {
      match e
      case Socket(packet, f) =>
        TimerSocket(c.(control := Handling(false, c.control.stdin)), Receive(c.mode, packet), f);
      case Stdin(input, f) => TimerInput(c.(control := Handling(c.control.socket, false)), input, f);
      case _ =>
    }
  }

  // ---------------------------------------------------------------- every run

  lemma KeptStep(c: Client, e: Event)
    requires Kept(c) && Timer(c)
    ensures Kept(Step(c, e))
  {
    hide ClientSend, HandleSocket, HandleInput, Receive, Kept, Transmit;
    if Enabled(c, e) {
      match e
      case Signal(f) =>
        KeptSend(c, Body.Bye, f);
        KeptEnd(c, StateEnd);
        KeptEnd(ClientSend(c, Body.Bye, f), StateEnd);
      case PollError(f) =>
        KeptEnd(c, StateEnd);
        KeptSend(c.(state := StateEnd), Body.Bye, f);
        KeptFrame(HandlePollError(c, f), Step(c, e));
      case Expire(f) =>
        var c' := c.(control := Checking, retries := c.retries + 1);
        KeptFrame(c, c');
        KeptEnd(c', StateEnd);
        KeptFrame(c'.(state := StateEnd), c'.(state := StateEnd, control := Stopped));
        KeptTransmit(c', c'.current, f.first);
      case Socket(packet, f) =>
        var c' := c.(control := Handling(false, c.control.stdin));
        KeptFrame(c, c');
        KeptSocket(c', Receive(c.mode, packet), f);
      case Stdin(input, f) =>
        var c' := c.(control := Handling(c.control.socket, false));
        KeptFrame(c, c');
        KeptInput(c', input, f);
      case Finish(f) =>
        KeptSend(c, Body.Bye, f);
        KeptEnd(ClientSend(c, Body.Bye, f), StateEnd);
        KeptFrame(HandleFinish(c, f), Step(c, e));
      case Enter => KeptFrame(c, Step(c, e));
      case Ready(_, _) => KeptFrame(c, Step(c, e));
    }
  }

  lemma {:induction false} KeptRun(mode: Mode, limit: nat, es: seq<Event>)
    ensures Kept(Run(Init(mode, limit), es)) && Timer(Run(Init(mode, limit), es))
    ensures Run(Init(mode, limit), es).mode == mode
  {
    if es != [] {
      var init, e := es[..|es| - 1], es[|es| - 1];
      KeptRun(mode, limit, init);
      KeptStep(Run(Init(mode, limit), init), e);
      TimerStep(Run(Init(mode, limit), init), e);
      StepMode(Run(Init(mode, limit), init), e);
    }
  }

  predicate SameFrame(c: Client, d: Client) {
    d.mode == c.mode && d.limit == c.limit && d.control == c.control && d.created >= c.created
  }

  lemma AcceptMode(c: Client, p: Payload, f: Faults)
    ensures SameFrame(c, Accept(c, p, f))
  {
    hide ClientSend;
    SendAny();
  }

  lemma SocketMode(c: Client, rx: Reception, f: Faults)
    ensures SameFrame(c, HandleSocket(c, rx, f))
  {
    hide ClientSend, Accept, Udp.Datagram, Tcp.Encode, Tcp.Printable;
    SendAny();
    if rx.Got? {
      forall d: Client
        ensures SameFrame(d, Accept(d, rx.p, f))
      {
        AcceptMode(d, rx.p, f);
      }
    }
  }

  lemma InputMode(c: Client, input: Input, f: Faults)
    ensures SameFrame(c, HandleInput(c, input, f))
  {
    hide ClientSend, Understand;
    SendAny();
  }

  lemma StepMode(c: Client, e: Event)
    ensures Step(c, e).mode == c.mode && Step(c, e).limit == c.limit && Step(c, e).created >= c.created
  {
    hide ClientSend, HandleSocket, HandleInput, Receive;
    SendAny();
    if Enabled(c, e) {
      match e
      case Socket(packet, f) => SocketMode(c.(control := Handling(false, c.control.stdin)), Receive(c.mode, packet), f);
      case Stdin(input, f) => InputMode(c.(control := Handling(c.control.socket, false)), input, f);
      case _ =>
    }
  }

  // ---------------------------------------------------------------- the statements

  /** Start, then Auth or NotAuth, then Open, then Error or End: no run goes back, local send failures included. */
  lemma {:induction false} PhaseMonotone(c: Client, es: seq<Event>, i: nat)
    requires i <= |es|
    ensures Rank(Run(c, es[..i]).state) <= Rank(Run(c, es).state)
  {
    if i == |es| {
      assert es[..i] == es;
    } else {
      var init := es[..|es| - 1];
      PhaseMonotone(c, init, i);
      assert init[..i] == es[..i];
      StepRank(Run(c, init), es[|es| - 1]);
    }
  }

  /** Any JOIN or MSG is issued after an AUTH and, later than that, a positive REPLY acted on in state Auth. */
  lemma AuthenticationFirst(mode: Mode, limit: nat, es: seq<Event>, k: nat) returns (a: nat, b: nat)
    requires k < |Run(Init(mode, limit), es).log| && IsTalk(Run(Init(mode, limit), es).log[k])
    ensures var log := Run(Init(mode, limit), es).log; a < b < k && IsAuth(log[a]) && IsGrant(log[b])
  {
    KeptRun(mode, limit, es);
    var log := Run(Init(mode, limit), es).log;
    assert Granted(log[..k]);
    a, b :| 0 <= a < b < |log[..k]| && IsAuth(log[..k][a]) && IsGrant(log[..k][b]);
  }

  /**
   Over UDP each ID is acted on at most once, and the IDs in the received set are exactly those
   acted on, each right after its CONFIRM was sent.
   */
  lemma ActedOnOnce(limit: nat, es: seq<Event>)
    ensures var c := Run(Init(UDP, limit), es);
            && (forall i, j :: 0 <= i < j < |c.log| && c.log[i].Processed? && c.log[j].Processed?
                   ==> c.log[i].p.id != c.log[j].p.id)
            && (forall id :: id in c.received
                   <==> exists i :: 0 <= i < |c.log| && c.log[i].Processed? && c.log[i].p.id == id)
            && (forall i :: 0 <= i < |c.log| && c.log[i].Processed?
                   ==> i > 0 && IsConfirm(c.log[i - 1]) && c.log[i - 1].p.id == c.log[i].p.id)
  {
    KeptRun(UDP, limit, es);
  }

  /** A CONFIRM sent over UDP is for an ID that was acted on, unless an ERR is issued right after it. */
  lemma ConfirmedWasActedOn(limit: nat, es: seq<Event>, i: nat)
    requires i < |Run(Init(UDP, limit), es).log| && IsConfirm(Run(Init(UDP, limit), es).log[i])
    ensures var log := Run(Init(UDP, limit), es).log;
            || (i + 1 < |log| && IsErr(log[i + 1]))
            || (exists j :: 0 <= j < |log| && log[j].Processed? && log[j].p.id == log[i].p.id)
  {
    KeptRun(UDP, limit, es);
    assert Accounted(Run(Init(UDP, limit), es).log, Run(Init(UDP, limit), es).received, i);
  }
}
