/** How often a datagram is repeated, and how many timeouts a closing client can take. */
module Retransmission {
  import opened Window
  import opened Payloads
  import opened Protocol
  import opened Phases
  import opened StopAndWait
  import Udp
  import Tcp

  /** The poll runs out of time in this run, that many times. */
  function Timeouts(c: Client, es: seq<Event>): nat {
    if es == [] then 0
    else
      var init, e := es[..|es| - 1], es[|es| - 1];
      Timeouts(c, init) + if Enabled(Run(c, init), e) && e.Expire? then 1 else 0
  }

  /** A CONFIRM reaches the client's comparison and carries the outstanding ID. */
  predicate Acknowledges(c: Client, e: Event) {
    Confirming(c, e) && !c.error
  }

  /** How many CONFIRMs matched. */
  function Matched(c: Client, es: seq<Event>): nat {
    if es == [] then 0
    else
      var init, e := es[..|es| - 1], es[|es| - 1];
      Matched(c, init) + if Acknowledges(Run(c, init), e) then 1 else 0
  }

  /** Only a timeout counts up and only a matching CONFIRM sets back. */
  lemma RetriesSocket(c: Client, rx: Reception, f: Faults)
    ensures HandleSocket(c, rx, f).retries == if Matches(c, rx) && !c.error then 0 else c.retries
  {
    SendAny();
    hide ClientSend, Udp.Datagram, Tcp.Encode, Tcp.Printable, Process;
    if rx.Got? {
      forall d: Client
        ensures Process(d, rx.p, f).retries == d.retries
      {
        RetriesProcess(d, rx.p, f);
      }
    }
  }

  lemma RetriesProcess(c: Client, p: Payload, f: Faults)
    ensures Process(c, p, f).retries == c.retries
  {
    SendAny();
    hide ClientSend;
  }

  lemma RetriesInput(c: Client, input: Input, f: Faults)
    ensures HandleInput(c, input, f).retries == c.retries
  {
    SendAny();
    hide ClientSend, Understand;
  }

  lemma RetriesStep(c: Client, e: Event)
    ensures Step(c, e).retries
            == if Acknowledges(c, e) then 0 else if Enabled(c, e) && e.Expire? then c.retries + 1 else c.retries
  {
    SendAny();
    hide ClientSend, HandleSocket, HandleInput, Receive;
    if Enabled(c, e) {
      match e
      case Socket(packet, f) =>
        RetriesSocket(c.(control := Handling(false, c.control.stdin)), Receive(c.mode, packet), f);
      case Stdin(input, f) => RetriesInput(c.(control := Handling(c.control.socket, false)), input, f);
      case _ =>
    }
  }

  /** The timeouts `n` retransmission budgets allow. */
  function Budgets(limit: nat, n: nat): nat {
    limit * n
  }

  lemma OneMore(limit: nat, n: nat)
    ensures Budgets(limit, n + 1) == Budgets(limit, n) + limit && Budgets(limit, 0) == 0
  {
  }

  /**
   Counting from any point of a run: the timeouts are at most one budget for each matching CONFIRM,
   plus what the counter has gained since.
   */
  lemma {:induction false} TimeoutsCounted(c: Client, es: seq<Event>)
    requires Timer(c)
    ensures Timer(Run(c, es)) && Run(c, es).limit == c.limit && Run(c, es).mode == c.mode
    ensures Timeouts(c, es) + c.retries <= Budgets(c.limit, Matched(c, es)) + Run(c, es).retries
  {
    hide Budgets, Step, Acknowledges, Enabled, Timer;
    if es == [] {
      OneMore(c.limit, 0);
    } else {
      var init, e := es[..|es| - 1], es[|es| - 1];
      TimeoutsCounted(c, init);
      CountStep(Run(c, init), e);
      OneMore(c.limit, Matched(c, init));
    }
  }

  lemma CountStep(c: Client, e: Event)
    requires Timer(c)
    ensures var d := Step(c, e);
            && Timer(d) && d.limit == c.limit && d.mode == c.mode
            && c.retries + (if Enabled(c, e) && e.Expire? then 1 else 0)
               <= (if Acknowledges(c, e) then c.limit else 0) + d.retries
  {
    TimerStep(c, e);
    RetriesStep(c, e);
    StepMode(c, e);
    hide Step;
    if Acknowledges(c, e) {
      AcknowledgesRunning(c, e);
    }
  }

  lemma AcknowledgesRunning(c: Client, e: Event)
    requires Timer(c) && Acknowledges(c, e)
    ensures c.retries <= c.limit && !e.Expire?
  {
  }

  /** In every run, local send failures included, at most R * (matching CONFIRMs + 1) + 1 timeouts occur. */
  lemma TimeoutBound(mode: Mode, limit: nat, es: seq<Event>)
    ensures var c := Init(mode, limit);
            && Timeouts(c, es) <= limit * (Matched(c, es) + 1) + 1
            && (Run(c, es).confirmed ==> Run(c, es).retries == 0)
  {
    var c := Init(mode, limit);
    hide Run, Matched, Timeouts;
    TimeoutsCounted(c, es);
    OneMore(limit, Matched(c, es));
  }

  /** Without a matching CONFIRM at most R timeouts repeat the datagram; one more ends the run. */
  lemma QuietWindow(mode: Mode, limit: nat, before: seq<Event>, es: seq<Event>)
    requires Matched(Run(Init(mode, limit), before), es) == 0
    ensures var c := Run(Init(mode, limit), before);
            Timeouts(c, es) <= if Run(c, es).control == Stopped then limit + 1 else limit
  {
    var c := Run(Init(mode, limit), before);
    KeptRun(mode, limit, before);
    TimeoutsCounted(Init(mode, limit), before);
    hide Run, Matched, Timeouts;
    TimeoutsCounted(c, es);
    OneMore(c.limit, 0);
  }

  /**
   In every run over UDP, local send failures included, a timeout within the limit sends the
   outstanding payload again under its ID, whole unless an error is pending, or leaves an error when
   the send fails; beyond the limit it ends the run and sends nothing.
   */
  lemma ExpireResends(limit: nat, es: seq<Event>, f: Faults)
    requires Enabled(Run(Init(UDP, limit), es), Expire(f))
    ensures var c := Run(Init(UDP, limit), es);
            var d := Step(c, Expire(f));
            && d.current == c.current && d.created == c.created && !c.confirmed && !d.confirmed
            && if c.retries < limit then
                 && d.state == c.state && d.retries == c.retries + 1 && d.error == (c.error || f.first)
                 && d.log == if f.first then c.log else c.log + [Sent(c.current, Udp.Datagram(c.current, c.error))]
               else d.log == c.log && d.control == Stopped && d.state == StateEnd
  {
    hide Run, Udp.Datagram, Matched, Timeouts, Kept;
    KeptRun(UDP, limit, es);
    TimeoutsCounted(Init(UDP, limit), es);
  }

  /** The two ways out of the loop: confirmed in End, or given up with the budget spent. */
  predicate Quit(c: Client) {
    c.control == Stopped ==> c.state == StateEnd && (c.confirmed || c.retries == c.limit + 1)
  }

  lemma QuitStep(c: Client, e: Event)
    requires Quit(c) && Timer(c)
    ensures Quit(Step(c, e))
  {
    SendAny();
    hide ClientSend, HandleSocket, HandleInput, Receive;
    if Enabled(c, e) {
      match e
      case Socket(packet, f) => SocketMode(c.(control := Handling(false, c.control.stdin)), Receive(c.mode, packet), f);
      case Stdin(input, f) => InputMode(c.(control := Handling(c.control.socket, false)), input, f);
      case _ =>
    }
  }

  /** Every run, local send failures included, leaves the loop only in one of these two ways. */
  lemma {:induction false} QuitRun(mode: Mode, limit: nat, es: seq<Event>)
    ensures Quit(Run(Init(mode, limit), es))
  {
    if es != [] {
      var init := es[..|es| - 1];
      QuitRun(mode, limit, init);
      KeptRun(mode, limit, init);
      QuitStep(Run(Init(mode, limit), init), es[|es| - 1]);
    }
  }

  // ---------------------------------------------------------------- closing down

  /** A signal, or a malformed packet that is read. */
  predicate Disturbs(c: Client, e: Event) {
    Enabled(c, e) && (e.Signal? || (e.Socket? && Receive(c.mode, e.packet).Bad?))
  }

  /** How many signals and malformed packets come in this run. */
  function Disturbances(c: Client, es: seq<Event>): nat {
    if es == [] then 0
    else
      var init, e := es[..|es| - 1], es[|es| - 1];
      Disturbances(c, init) + if Disturbs(Run(c, init), e) then 1 else 0
  }

  /** A client on its way out over UDP: confirmed only between the CONFIRM and the end of the iteration. */
  predicate Leaving(c: Client) {
    && c.mode == UDP && Closing(c) && !PollsStdin(c)
    && (c.state == StateError && c.confirmed ==> c.control.Handling?)
    && !(c.confirmed && c.control.Waiting?)
    && (c.confirmed && c.control.Handling? ==> !c.control.socket)
  }

  /** How many timeouts can still come undisturbed; a pending error may still cost an ERR before the BYE. */
  function Left(c: Client): nat {
    if c.control == Stopped then 0
    else
      var now := if c.confirmed then 0 else if c.retries <= c.limit then c.limit - c.retries else 0;
      if c.state == StateError || c.error then now + c.limit + 1
      else if c.confirmed then 0 else now + 1
  }

  /** The price of a disturbance. */
  function Extra(c: Client, disturbed: bool): nat {
    if disturbed then c.limit + 1 else 0
  }

  lemma LeavingSocket(c: Client, rx: Reception)
    requires Leaving(c) && Settled(c) && Timer(c) && c.control == Handling(false, false) && !c.confirmed
    ensures var d := HandleSocket(c, rx, NO_FAULTS);
            Leaving(d) && Left(d) <= Left(c) + Extra(c, rx.Bad?)
  {
    SendsOk(c.(error := false), Err(c.name, MalformedText()));
    hide ClientSend, MalformedText, Ascii, Process;
  }

  lemma LeavingStep(c: Client, e: Event)
    requires Leaving(c) && Timer(c) && Settled(c) && Faultless(e)
    ensures var d := Step(c, e);
            && Leaving(d)
            && Left(d) + (if Enabled(c, e) && e.Expire? then 1 else 0) <= Left(c) + Extra(c, Disturbs(c, e))
  {
    hide ClientSend, HandleSocket, HandleInput, Receive, Udp.Datagram, Decided, Named;
    SendsOk(c, Body.Bye);
    SendsOk(c.(state := StateEnd), Body.Bye);
    if Enabled(c, e) {
      match e
      case Socket(packet, f) =>
        var c' := c.(control := Handling(false, c.control.stdin));
        DispatchSettled(c, c');
        LeavingSocket(c', Receive(c.mode, packet));
      case _ =>
    }
  }

  lemma DispatchSettled(c: Client, d: Client)
    requires Settled(c) && c.control.Handling? && d == c.(control := Handling(false, c.control.stdin))
    ensures Settled(d)
  {
  }

  lemma ClosingStep(c: Client, e: Event)
    requires Leaving(c) && Timer(c) && Settled(c) && Faultless(e)
    ensures var d := Step(c, e);
            && Leaving(d) && Timer(d) && Settled(d) && d.limit == c.limit
            && Left(d) + (if Enabled(c, e) && e.Expire? then 1 else 0) <= Left(c) + Extra(c, Disturbs(c, e))
  {
    LeavingStep(c, e);
    hide Left, Timer, Settled, Step, Enabled, Disturbs, Extra;
    TimerStep(c, e);
    StepSettled(c, e);
    StepMode(c, e);
  }

  /**
   From Error or End at the loop test with something outstanding, a run takes at most 2R + 1 timeouts,
   and R + 1 more for each signal and each malformed packet; when they are used up the client has left
   the loop or is confirmed and in state End.
   */
  lemma {:induction false} ShutdownBound(c: Client, es: seq<Event>)
    requires Leaving(c) && Timer(c) && Settled(c) && AllFaultless(es)
    ensures var d := Run(c, es);
            && Leaving(d) && Timer(d) && Settled(d) && d.limit == c.limit
            && Timeouts(c, es) + Left(d) <= Left(c) + Budgets(c.limit + 1, Disturbances(c, es))
  {
    hide Budgets, Leaving, Left, Timer, Settled, Step, Enabled, Disturbs;
    OneMore(c.limit + 1, 0);
    if es != [] {
      var init, e := es[..|es| - 1], es[|es| - 1];
      ShutdownBound(c, init);
      ClosingStep(Run(c, init), e);
      OneMore(c.limit + 1, Disturbances(c, init));
    }
  }

  lemma BeginsLeaving(c: Client)
    requires c.mode == UDP && c.control == Checking && Closing(c) && !c.confirmed && Timer(c)
    ensures Leaving(c) && Left(c) <= 2 * c.limit + 1
  {
  }

  lemma NoneLeft(c: Client)
    requires Leaving(c) && Left(c) == 0
    ensures Gone(c)
  {
  }

  /** The client has left the loop, or is about to. */
  predicate Gone(c: Client) {
    c.control == Stopped || (c.state == StateEnd && c.confirmed)
  }

  lemma Closes(c: Client, es: seq<Event>)
    requires c.mode == UDP && c.control == Checking && Closing(c) && !c.confirmed && Timer(c) && Settled(c)
    requires AllFaultless(es)
    ensures var bound := 2 * c.limit + 1 + Budgets(c.limit + 1, Disturbances(c, es));
            Timeouts(c, es) <= bound && (Timeouts(c, es) == bound ==> Gone(Run(c, es)))
  {
    hide Leaving, Left, Timer, Settled, Budgets, Disturbances, Timeouts, Run;
    BeginsLeaving(c);
    ShutdownBound(c, es);
    if Left(Run(c, es)) == 0 {
      NoneLeft(Run(c, es));
    }
  }

  lemma Reached(limit: nat, es: seq<Event>)
    requires AllFaultless(es)
    ensures var c := Run(Init(UDP, limit), es); Timer(c) && Settled(c) && c.mode == UDP && c.limit == limit
  {
    hide Run, Settled, Matched, Timeouts, Kept;
    KeptRun(UDP, limit, es);
    RunSettled(UDP, limit, es);
    TimeoutsCounted(Init(UDP, limit), es);
  }

  /** In every run without send failures, from wherever the client begins to close. */
  lemma ShutdownTerminates(limit: nat, before: seq<Event>, es: seq<Event>)
    requires AllFaultless(before) && AllFaultless(es)
    requires var c := Run(Init(UDP, limit), before); c.control == Checking && Closing(c) && !c.confirmed
    ensures var c := Run(Init(UDP, limit), before);
            var bound := 2 * limit + 1 + Budgets(limit + 1, Disturbances(c, es));
            Timeouts(c, es) <= bound && (Timeouts(c, es) == bound ==> Gone(Run(c, es)))
  {
    hide Run, Init, Timer, Settled, Disturbances, Timeouts, AllFaultless, Budgets, Gone;
    Reached(limit, before);
    Closes(Run(Init(UDP, limit), before), es);
  }
}
