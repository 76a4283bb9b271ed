/** A payload that the client confirms is one it acts on: exactly when no error is pending. */
module Coherence {
  import opened Window
  import opened Payloads
  import opened Protocol
  import opened Phases
  import opened StopAndWait
  import opened Exchanges
  import Udp

  /** A well-formed payload is read. */
  predicate Arrives(c: Client, e: Event) {
    Enabled(c, e) && e.Socket? && Receive(c.mode, e.packet).Got? && !Receive(c.mode, e.packet).p.body.Confirm?
  }

  function IdOf(c: Client, e: Event): MessageId
    requires Arrives(c, e)
  {
    Receive(c.mode, e.packet).p.id
  }

  /** The first thing the step does is to send the CONFIRM of the payload read. */
  predicate Confirmed(c: Client, e: Event) {
    && Arrives(c, e)
    && var d := Step(c, e);
       |d.log| > |c.log| && IsConfirm(d.log[|c.log|]) && d.log[|c.log|].p.id == IdOf(c, e)
  }

  /** The IDs of the well-formed payloads confirmed in a run. */
  function ConfirmedIds(c: Client, es: seq<Event>): set<MessageId> {
    if es == [] then {}
    else
      var init, e := es[..|es| - 1], es[|es| - 1];
      var b := Run(c, init);
      ConfirmedIds(c, init) + if Confirmed(b, e) then {IdOf(b, e)} else {}
  }

  /** Those among them that were confirmed while an error was pending. */
  function StrayIds(c: Client, es: seq<Event>): set<MessageId> {
    if es == [] then {}
    else
      var init, e := es[..|es| - 1], es[|es| - 1];
      var b := Run(c, init);
      StrayIds(c, init) + if Confirmed(b, e) && b.error then {IdOf(b, e)} else {}
  }

  // ---------------------------------------------------------------- one arrival

  lemma ActionLog(c: Client, p: Payload, f: Faults)
    ensures c.log <= Process(c, p, f).log && Process(c, p, f).received == c.received + {p.id}
  {
    hide ClientSend, MalformedText, Ascii;
    var d := c.(received := c.received + {p.id}, log := c.log + [Processed(p, c.state)]);
    var _ := SendShape(d, Body.Bye, f);
    var _ := SendShape(d, Err(d.name, MalformedText()), f);
  }

  lemma MalformedLog(c: Client, f: Faults)
    ensures var d := SendMalformed(c, f); c.log < d.log && d.log[|c.log|].Issued? && d.received == c.received
  {
    hide ClientSend, MalformedText, Ascii;
    var _ := SendShape(c, Err(c.name, MalformedText()), f);
  }

  /**
   A well-formed payload that arrives over UDP while nothing is outstanding: its CONFIRM goes out
   unless the send fails, and it is acted on, now or before, unless the send fails or an error is pending.
   */
  lemma ArrivalExact(c: Client, p: Payload, f: Faults)
    requires c.mode == UDP && c.confirmed && !p.body.Confirm?
    ensures var d := HandleSocket(c, Got(p), f);
            && (p.id in d.received <==> p.id in c.received || (!c.error && !f.confirm))
            && d.received == c.received + (if !c.error && !f.confirm then {p.id} else {})
            && (|d.log| > |c.log| && IsConfirm(d.log[|c.log|]) && d.log[|c.log|].p.id == p.id <==> !f.confirm)
  {
    hide SendMalformed, Process, Udp.Datagram, TypeCode;
    CodeOfConfirm(p.body);
    var b := Transmit(c, Payload(p.id, Confirm), f.confirm);
    if b.error {
      MalformedLog(b.(error := false), f);
    } else {
      ActionLog(b, p, f);
    }
  }

  lemma CodeOfConfirm(b: Body)
    ensures TypeCode(b) == CONFIRM <==> b.Confirm?
  {
  }

  lemma DroppedArrival(c: Client, p: Payload, f: Faults)
    requires !c.confirmed && !p.body.Confirm?
    ensures HandleSocket(c, Got(p), f) == c
  {
    CodeOfConfirm(p.body);
  }

  /** Nothing but a well-formed payload is ever acted on. */
  lemma OtherArrival(c: Client, rx: Reception, f: Faults)
    requires rx.Got? ==> rx.p.body.Confirm?
    ensures HandleSocket(c, rx, f).received == c.received
  {
    hide SendMalformed, Transmit;
    if !rx.Ignored? {
      var code := if rx.Got? then TypeCode(rx.p.body) else rx.code;
      var id := if rx.Got? then rx.p.id else rx.id;
      var a := c.(error := c.error || rx.Bad?);
      var _ := TransmitShape(a, Payload(id, Confirm), f.confirm);
      var b := if code != CONFIRM then Transmit(a, Payload(id, Confirm), f.confirm) else a;
      MalformedLog(b.(error := false), f);
    }
  }

  lemma StepReceives(c: Client, e: Event)
    requires c.mode == UDP
    ensures Step(c, e).received == c.received + if Confirmed(c, e) && !c.error then {IdOf(c, e)} else {}
  {
    hide ClientSend, HandleSocket, HandleInput, Receive;
    SendAny();
    if Enabled(c, e) {
      match e
      case Socket(packet, f) =>
        var c' := c.(control := Handling(false, c.control.stdin));
        var rx := Receive(UDP, packet);
        if !rx.Got? || rx.p.body.Confirm? {
          OtherArrival(c', rx, f);
        } else if c.confirmed {
          ArrivalExact(c', rx.p, f);
        } else {
          DroppedArrival(c', rx.p, f);
        }
      case Stdin(input, f) => InputReceives(c.(control := Handling(c.control.socket, false)), input, f);
      case _ =>
    }
  }

  lemma InputReceives(c: Client, input: Input, f: Faults)
    ensures HandleInput(c, input, f).received == c.received
  {
    hide ClientSend, Understand;
    SendAny();
  }

  // ---------------------------------------------------------------- every run

  /**
   In every run over UDP, local send failures included, the received IDs and the stray ones together
   are the confirmed ones.
   */
  lemma {:induction false} ConfirmedIsReceivedOrStray(limit: nat, es: seq<Event>)
    ensures Run(Init(UDP, limit), es).received + StrayIds(Init(UDP, limit), es) == ConfirmedIds(Init(UDP, limit), es)
  {
    hide Step, Confirmed, Arrives;
    if es != [] {
      var init, e := es[..|es| - 1], es[|es| - 1];
      ConfirmedIsReceivedOrStray(limit, init);
      KeptMode(limit, init);
      StepReceives(Run(Init(UDP, limit), init), e);
    }
  }

  lemma KeptMode(limit: nat, es: seq<Event>)
    ensures Run(Init(UDP, limit), es).mode == UDP
  {
    hide Run, Kept;
    KeptRun(UDP, limit, es);
  }

  /** So confirming and acting agree exactly when every stray ID was, another time, acted on. */
  lemma ConfirmedIsReceivedExactly(limit: nat, es: seq<Event>)
    ensures ConfirmedIds(Init(UDP, limit), es) == Run(Init(UDP, limit), es).received
            <==> StrayIds(Init(UDP, limit), es) <= Run(Init(UDP, limit), es).received
  {
    hide ConfirmedIds, StrayIds, Run;
    ConfirmedIsReceivedOrStray(limit, es);
  }

  lemma {:induction false} NoStrays(limit: nat, es: seq<Event>)
    requires AllFaultless(es)
    ensures StrayIds(Init(UDP, limit), es) == {}
  {
    if es != [] {
      hide Step, Settled;
      var init, e := es[..|es| - 1], es[|es| - 1];
      NoStrays(limit, init);
      KeptMode(limit, init);
      RunSettled(UDP, limit, init);
      NotStray(Run(Init(UDP, limit), init), e);
    }
  }

  lemma NotStray(c: Client, e: Event)
    requires Settled(c) && c.mode == UDP
    ensures !(Confirmed(c, e) && c.error)
  {
    hide HandleSocket, Receive;
    if c.error && Arrives(c, e) {
      DroppedArrival(c.(control := Handling(false, c.control.stdin)), Receive(UDP, e.packet).p, e.f);
    }
  }

  /**
   Without local send failures the well-formed payloads confirmed are exactly those acted on: each ID
   confirmed was acted on once and only once, and each acted on was confirmed.
   */
  lemma ConfirmedIsActedOn(limit: nat, es: seq<Event>, id: MessageId)
    requires AllFaultless(es)
    ensures var log := Run(Init(UDP, limit), es).log;
            && ConfirmedIds(Init(UDP, limit), es) == Run(Init(UDP, limit), es).received
            && (id in ConfirmedIds(Init(UDP, limit), es)
                <==> exists i :: 0 <= i < |log| && log[i].Processed? && log[i].p.id == id)
            && (forall i, j :: 0 <= i < j < |log| && log[i].Processed? && log[j].Processed?
                  ==> log[i].p.id != log[j].p.id)
  {
    hide Run, ConfirmedIds, StrayIds, Kept;
    NoStrays(limit, es);
    ConfirmedIsReceivedOrStray(limit, es);
    ActedOnOnce(limit, es);
  }

  // ---------------------------------------------------------------- a stray confirmation

  const GREETING := Payload(0, Message(LETTER, LETTER))

  /** Both sends at the end of input fail; the error stays, and a well-formed MSG is confirmed and not acted on. */
  lemma StrayConfirm(limit: nat)
    ensures var es := [Enter] + [Ready(true, true)] + [Stdin(Eof([]), Faults(false, true, true))]
                      + [Socket(Arrived(Udp.Encode(GREETING), 0), NO_FAULTS)];
            && 0 in ConfirmedIds(Init(UDP, limit), es) && Run(Init(UDP, limit), es).received == {}
  {
    hide Run, Receive, Confirmed, ConfirmedIds;
    LetterTypable();
    DecodesWhole(GREETING);
    var c := Init(UDP, limit);
    var es := [Enter] + [Ready(true, true)] + [Stdin(Eof([]), Faults(false, true, true))];
    var e := Socket(Arrived(Udp.Encode(GREETING), 0), NO_FAULTS);
    FailedGoodbye(limit);
    GreetingStrays(Run(c, es));
    LastConfirmed(c, es, e);
    RunThen(c, es, e);
  }

  lemma LastConfirmed(c: Client, es: seq<Event>, e: Event)
    requires Confirmed(Run(c, es), e)
    ensures IdOf(Run(c, es), e) in ConfirmedIds(c, es + [e])
  {
    hide Confirmed, Run;
    assert (es + [e])[..|es|] == es;
  }

  lemma FailedGoodbye(limit: nat)
    ensures var b := Run(Init(UDP, limit), [Enter] + [Ready(true, true)] + [Stdin(Eof([]), Faults(false, true, true))]);
            b.error && b.confirmed && b.received == {} && b.control == Handling(true, false) && b.mode == UDP
  {
    hide Run, Udp.Datagram, SendFailedText;
    var c := Init(UDP, limit);
    RunNone(c);
    RunThen(c, [], Enter);
    assert [] + [Enter] == [Enter];
    RunThen(c, [Enter], Ready(true, true));
    RunThen(c, [Enter] + [Ready(true, true)], Stdin(Eof([]), Faults(false, true, true)));
  }

  lemma GreetingStrays(c: Client)
    requires c.error && c.confirmed && c.received == {} && c.control == Handling(true, false) && c.mode == UDP
    ensures var e := Socket(Arrived(Udp.Encode(GREETING), 0), NO_FAULTS);
            Confirmed(c, e) && IdOf(c, e) == 0 && Step(c, e).received == {}
  {
    hide Receive, HandleSocket, Udp.Encode;
    LetterTypable();
    DecodesWhole(GREETING);
    ArrivalExact(c.(control := Handling(false, false)), GREETING, NO_FAULTS);
  }
}
