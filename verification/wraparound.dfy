/**
 The bound of OrderedDelivery is exact: past 65536 payloads an ID comes back and its payload is taken
 for a repeat.
 */
module Wraparound {
  import opened Window
  import opened Payloads
  import opened Protocol
  import opened StopAndWait
  import opened Delivery
  import opened Exchanges
  import Commands
  import Udp
  import Typed

  lemma PlayThen(limit: nat, ms: seq<Move>, m: Move)
    ensures Play(limit, ms + [m]) == Next(Play(limit, ms), m)
  {
    assert (ms + [m])[..|ms|] == ms;
  }

  lemma ThenClient(limit: nat, ms: seq<Move>, e: Event)
    requires Possible(Play(limit, ms), ClientMove(e))
    ensures Play(limit, ms + [ClientMove(e)]) == Play(limit, ms).(client := Step(Play(limit, ms).client, e))
  {
    PlayThen(limit, ms, ClientMove(e));
  }

  /** The chat payload `p` has just gone out whole and nothing else is ready. */
  ghost predicate JustSent(c: Client, p: Payload) {
    && c.mode == UDP && c.control == Handling(false, false) && !c.confirmed && !c.error && !Closing(c)
    && c.current == p && WellFormed(p.body) && IsChat(p.body)
    && |c.log| > 0 && c.log[|c.log| - 1] == Sent(p, Udp.Encode(p))
  }

  function Heard(s: Server, p: Payload): Server {
    if p.id in s.seen then s else Server(s.seen + {p.id}, s.heard + [p])
  }

  lemma Hears(s: Server, p: Payload)
    requires WellFormed(p.body) && IsChat(p.body)
    ensures Receives(s, Udp.Encode(p)) == Heard(s, p)
  {
    hide Udp.Encode, Udp.Decode, WellFormed;
    Udp.RoundTrip(p);
  }

  /** The server hears the payload, confirms it, and the confirmation arrives. */
  lemma Exchange(limit: nat, ms: seq<Move>, p: Payload) returns (ms': seq<Move>)
    requires JustSent(Play(limit, ms).client, p)
    ensures var w := Play(limit, ms);
            Play(limit, ms') == World(Confirmed(w.client), Heard(w.server, p))
  {
    hide Play, Step, Receive, Receives, Udp.Encode, WellFormed, Heard;
    var w := Play(limit, ms);
    SentFinishes(w.client, p);
    ThenClient(limit, ms, Finish(NO_FAULTS));
    ms' := ms + [ClientMove(Finish(NO_FAULTS))];
    Hears(w.server, p);
    PlayThen(limit, ms', Hear(Udp.Encode(p)));
    ms' := ms' + [Hear(Udp.Encode(p))];
    HeardSeen(w.server, p);
    ms' := ConfirmMoves(limit, ms', p);
  }

  lemma SentFinishes(c: Client, p: Payload)
    requires JustSent(c, p)
    ensures Step(c, Finish(NO_FAULTS)) == c.(control := Checking)
  {
    hide ClientSend, Udp.Encode, WellFormed;
  }

  lemma HeardSeen(s: Server, p: Payload)
    ensures p.id in Heard(s, p).seen
  {
  }

  /** The client polls, reads the CONFIRM and finishes the iteration. */
  lemma ConfirmMoves(limit: nat, ms: seq<Move>, p: Payload) returns (ms': seq<Move>)
    requires var w := Play(limit, ms);
             var c := w.client;
             && c.mode == UDP && c.control == Checking && !c.confirmed && !c.error && !Closing(c)
             && c.current == p && p.id in w.server.seen
    ensures Play(limit, ms') == Play(limit, ms).(client := Confirmed(Play(limit, ms).client))
  {
    hide Play, Step, Receive, Udp.Encode;
    ConfirmRound(Play(limit, ms).client);
    DecodesWhole(Payload(p.id, Confirm));
    ThenClient(limit, ms, Enter);
    ms' := ms + [ClientMove(Enter)];
    ThenClient(limit, ms', Ready(true, false));
    ms' := ms' + [ClientMove(Ready(true, false))];
    ThenClient(limit, ms', Socket(ConfirmPacket(p.id), NO_FAULTS));
    ms' := ms' + [ClientMove(Socket(ConfirmPacket(p.id), NO_FAULTS))];
    ThenClient(limit, ms', Finish(NO_FAULTS));
    ms' := ms' + [ClientMove(Finish(NO_FAULTS))];
  }

  lemma Speak(limit: nat, ms: seq<Move>, text: seq<byte>, cmd: Commands.Command) returns (ms': seq<Move>)
    requires Free(Play(limit, ms).client) && Typable(text, cmd) && text != []
             && Typed.Allowed(Play(limit, ms).client.state, cmd)
    ensures var w := Play(limit, ms);
            Play(limit, ms') == World(Said(w.client, cmd), w.server)
  {
    var c := Play(limit, ms).client;
    SpeakStep(c, text, cmd);
    hide Play, Step, Understand, Receive, Spoken, Typable;
    ThenClient(limit, ms, Enter);
    ms' := ms + [ClientMove(Enter)];
    ThenClient(limit, ms', Ready(false, true));
    ms' := ms' + [ClientMove(Ready(false, true))];
    ThenClient(limit, ms', Stdin(Line(text), NO_FAULTS));
    ms' := ms' + [ClientMove(Stdin(Line(text), NO_FAULTS))];
  }

  lemma SaidSent(c: Client, cmd: Commands.Command)
    requires Free(c) && Typed.Allowed(c.state, cmd) && WellFormed(Said(c, cmd).current.body)
    ensures JustSent(Said(c, cmd), Said(c, cmd).current)
  {
    hide Udp.Encode, WellFormed;
  }

  /** A line is typed, its payload heard and confirmed. */
  lemma Chat(limit: nat, ms: seq<Move>, text: seq<byte>, cmd: Commands.Command) returns (ms': seq<Move>)
    requires var c := Play(limit, ms).client;
             && Free(c) && Typable(text, cmd) && text != [] && Typed.Allowed(c.state, cmd)
             && WellFormed(Said(c, cmd).current.body)
    ensures var w := Play(limit, ms);
            Play(limit, ms') == World(Confirmed(Said(w.client, cmd)), Heard(w.server, Said(w.client, cmd).current))
  {
    var c := Play(limit, ms).client;
    SaidSent(c, cmd);
    hide Play, Free, Typable, Typed.Allowed, Said, WellFormed, JustSent, Heard, Confirmed;
    ms' := Speak(limit, ms, text, cmd);
    ms' := Exchange(limit, ms', Said(c, cmd).current);
  }

  const GRANT := Payload(0, Reply(true, 0, LETTER))
  const GRANT_PACKET := Arrived(Udp.Encode(GRANT), 0)

  function LetIn(c: Client): Client {
    c.(state := StateOpen, received := c.received + {0},
       log := c.log + ([Sent(Payload(0, Confirm), Udp.Encode(Payload(0, Confirm)))] + [Processed(GRANT, StateAuth)]))
  }

  lemma GrantHandled(c: Client)
    requires c.mode == UDP && c.confirmed && !c.error && c.state == StateAuth && 0 !in c.received
    ensures HandleSocket(c, Got(GRANT), NO_FAULTS) == LetIn(c)
  {
    hide Udp.Encode, ClientSend, SendMalformed;
    var confirm := Sent(Payload(0, Confirm), Udp.Encode(Payload(0, Confirm)));
    assert c.log + [confirm] + [Processed(GRANT, StateAuth)] == c.log + ([confirm] + [Processed(GRANT, StateAuth)]);
  }

  lemma GrantDecodes()
    ensures |Udp.Encode(GRANT)| <= BYTES_SIZE && Receive(UDP, GRANT_PACKET) == Got(GRANT)
  {
    LetterTypable();
    DecodesWhole(GRANT);
  }

  /** The login reply is read and lets the client in. */
  lemma ReplyRound(c: Client)
    requires Free(c) && c.state == StateAuth && 0 !in c.received
    ensures var a := Step(Step(c, Enter), Ready(true, false));
            Step(Step(a, Socket(GRANT_PACKET, NO_FAULTS)), Finish(NO_FAULTS)) == LetIn(c)
  {
    hide Step, LetIn;
    SocketOpens(c);
    GrantArrives(c);
    GrantFinishes(c);
  }

  lemma GrantPossible(w: World)
    ensures Possible(w, ClientMove(Socket(GRANT_PACKET, NO_FAULTS)))
  {
    hide Receive, Udp.Encode;
    GrantDecodes();
  }

  lemma GrantArrives(c: Client)
    requires Free(c) && c.state == StateAuth && 0 !in c.received
    ensures Step(c.(control := Handling(true, false)), Socket(GRANT_PACKET, NO_FAULTS))
            == LetIn(c.(control := Handling(false, false)))
  {
    hide Receive, Udp.Encode, HandleSocket, LetIn;
    GrantDecodes();
    GrantHandled(c.(control := Handling(false, false)));
  }

  lemma SocketOpens(c: Client)
    requires c.control == Checking && c.state != StateEnd
    ensures Step(Step(c, Enter), Ready(true, false)) == c.(control := Handling(true, false))
  {
  }

  lemma GrantFinishes(c: Client)
    requires c.control == Checking
    ensures Step(LetIn(c.(control := Handling(false, false))), Finish(NO_FAULTS)) == LetIn(c)
  {
    hide Udp.Encode, ClientSend;
  }

  /** After `n` chat payloads and nothing else, all confirmed. */
  ghost predicate After(w: World, n: nat) {
    && Free(w.client) && w.client.state == StateOpen && FieldOk(DisplayName, w.client.name)
    && w.client.created == n && |ChatLog(w.client)| == n
    && (forall id: MessageId :: id in w.server.seen <==> id < n)
    && |w.server.heard| == if n <= IDS then n else IDS
  }

  /** One more message. */
  lemma OneMore(limit: nat, ms: seq<Move>, n: nat) returns (ms': seq<Move>)
    requires After(Play(limit, ms), n)
    ensures After(Play(limit, ms'), n + 1)
  {
    hide Play, Typable, Udp.Encode, FieldOk, Issues, Chats;
    var w := Play(limit, ms);
    LetterTypable();
    var p := Payload(n % IDS, Message(w.client.name, LETTER));
    ms' := Chat(limit, ms, LETTER, Commands.Say(LETTER));
    ChatIssued(w.client.log, p, [Sent(p, Udp.Encode(p))]);
  }

  lemma Grant(limit: nat, ms: seq<Move>) returns (ms': seq<Move>)
    requires var c := Play(limit, ms).client; Free(c) && c.state == StateAuth && 0 !in c.received
    ensures Play(limit, ms') == Play(limit, ms).(client := LetIn(Play(limit, ms).client))
  {
    hide Play, Step, Receive, Udp.Encode, LetIn;
    ReplyRound(Play(limit, ms).client);
    ThenClient(limit, ms, Enter);
    ms' := ms + [ClientMove(Enter)];
    ThenClient(limit, ms', Ready(true, false));
    ms' := ms' + [ClientMove(Ready(true, false))];
    GrantPossible(Play(limit, ms'));
    ThenClient(limit, ms', Socket(GRANT_PACKET, NO_FAULTS));
    ms' := ms' + [ClientMove(Socket(GRANT_PACKET, NO_FAULTS))];
    ThenClient(limit, ms', Finish(NO_FAULTS));
    ms' := ms' + [ClientMove(Finish(NO_FAULTS))];
  }

  const FIRST := Payload(0, Auth(LETTER, LETTER, LETTER))

  lemma Beginning(limit: nat)
    ensures var c := Init(UDP, limit);
            && Play(limit, []) == World(c, Server({}, []))
            && Free(c) && Typed.Allowed(c.state, LOGIN)
            && Said(c, LOGIN) == Spoken(c, LETTER, StateAuth, FIRST.body) && Said(c, LOGIN).current == FIRST
    ensures Heard(Server({}, []), FIRST) == Server({0}, [FIRST])
  {
    hide Udp.Encode;
  }

  lemma Ask(limit: nat) returns (ms: seq<Move>)
    ensures Play(limit, ms)
            == World(Confirmed(Spoken(Init(UDP, limit), LETTER, StateAuth, FIRST.body)), Server({0}, [FIRST]))
  {
    LoginTypable();
    Beginning(limit);
    hide Commands.Render, Typable, Play, WellFormed, Heard, Confirmed, Spoken, Said, Free, Typed.Allowed, Init;
    ms := Chat(limit, [], Commands.Render(LOGIN), LOGIN);
  }

  /** Logging in: the first chat payload. */
  lemma LogIn(limit: nat) returns (ms: seq<Move>)
    ensures After(Play(limit, ms), 1)
  {
    hide Play, Udp.Encode, Issues, Chats, FieldOk, Typable;
    LetterTypable();
    ms := Ask(limit);
    var d := Play(limit, ms).client;
    LoggedIn(Init(UDP, limit), d, FIRST);
    ms := Grant(limit, ms);
  }

  lemma LoggedIn(c: Client, d: Client, p: Payload)
    requires c.log == [] && IsChat(p.body) && d.log == c.log + ([Issued(p)] + [Sent(p, Udp.Encode(p))])
    ensures forall a: Entry, b: Entry :: a.Sent? && b.Processed? ==> |Chats(Issues(d.log + ([a] + [b])))| == 1
  {
    ChatIssued(c.log, p, [Sent(p, Udp.Encode(p))]);
    assert Chats(Issues([])) == [];
    forall a: Entry, b: Entry | a.Sent? && b.Processed?
      ensures |Chats(Issues(d.log + ([a] + [b])))| == 1
    {
      ChatAdds(d.log, [a] + [b]);
    }
  }

  lemma {:induction false} Talk(limit: nat, n: nat) returns (ms: seq<Move>)
    requires n > 0
    ensures After(Play(limit, ms), n)
  {
    if n == 1 {
      ms := LogIn(limit);
    } else {
      ms := Talk(limit, n - 1);
      ms := OneMore(limit, ms, n - 1);
    }
  }

  /** Delivery is in order in all runs with at most `n` payloads exactly when their IDs cannot come back. */
  lemma BoundIsExact(limit: nat, n: nat)
    ensures (forall ms :: Play(limit, ms).client.created <= n ==> Delivered(Play(limit, ms))) <==> n <= 0x1_0000
  {
    if n <= 0x1_0000 {
      forall ms | Play(limit, ms).client.created <= n
        ensures Delivered(Play(limit, ms))
      {
        OrderedDelivery(limit, ms);
      }
    } else {
      var ms := Talk(limit, n);
      assert !Delivered(Play(limit, ms));
    }
  }
}
