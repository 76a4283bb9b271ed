# IPK24-CHAT client: model and proofs

A Dafny model of the C chat client: the event loop and its handlers, the UDP and TCP wire formats,
the command parser, and the byte window, keyword trie and received-ID bit field under them.

| file | what it holds |
|---|---|
| bytes.dfy | the sliding byte window as a class over a fixed array |
| payload.dfy | payloads, field limits, the maximal-run scanner |
| trie.dfy, keywords.dfy | the heap trie with its footprint; longest-prefix rule; dispatch equals a table scan |
| bit_field.dfy | the received-ID set as bits |
| udp.dfy, tcp.dfy, commands.dfy | per format: a specification of printing and parsing, the methods over the byte window proved equal to it, and the round trips |
| wire.dfy | the formats in numbers: characters, limits, datagrams and messages byte by byte, command lines |
| overlong.dfy | exactly which datagrams with an overlong field are accepted |
| protocol.dfy | the client as a step function over events |
| client.dfy | the client as a class over its mutable globals; every handler takes exactly the step of protocol.dfy |
| phases.dfy | what every run keeps, local send failures included |
| stop_and_wait.dfy | which payload is outstanding in which state; stop and wait |
| automaton.dfy | the state diagram as an automaton over the trace, which STATE follows |
| retransmission.dfy | retransmission budgets and the end of every shutdown |
| farewell.dfy | when a BYE goes out, when an ERR takes its place, when the server hears nothing |
| interrupts.dfy | a signal in the middle of a handler |
| stream.dfy | over TCP, what is sent is what was issued, in order |
| delivery.dfy, wraparound.dfy | ordered delivery over a lossy network, and that its bound of 65536 payloads is exact |
| incoming.dfy | ordered reception in the other direction, and its exact bound |
| coherence.dfy | confirming a payload and acting on it |
| effects.dfy | what each event does to the whole client; where the display name comes from; the budget spent |
| exchanges.dfy | single rounds from which the examples of runs are put together |
| typed.dfy | from the typed line to what the peer decodes |

`Protocol.Step` is total: an event that cannot happen where the loop is changes nothing, so "every
sequence of events" and "every run" are the same. A signal may come before any handler and between
any two. Bytes handed to the socket, payloads issued and payloads acted on are recorded in order in
the client's `log`. `Clients.ChatClient.Run` is proved to end in `Protocol.Run` of the same events,
which carries every statement about runs over to the class.

## Where the code departs from its documentation or evident intent

The model does what the code does. Each consequence below has a run or an input that shows it and an
exact condition:

- The global error is not cleared when a datagram is ignored because the outstanding payload is
  unconfirmed (`src/client.c:239-243`). It stays pending: the next datagrams are cut to their header
  (`src/udp.c:102-103`), and the next packet is treated as malformed. A closing client may then wait
  with an ERR outstanding where its BYE should be (`Farewell.ByeLostToPendingError`). This happens on a
  signal, a failed poll or the end of input, exactly when an error is pending (`Farewell.ByeOrErr`), and
  `Farewell.TidyThroughout` says exactly in which runs no error is ever left pending.
- Reading input that ends in more than 1501 bytes without a line end also sets the error, which is then
  met by the BYE (`src/input.c:19-31`, `src/client.c:339-343`): `Farewell.ByeLostToOverlongEnd`, and the
  second case in the same two lemmas.
- In `udp_deserialize` the scan result is a `size_t`, so the overflow value -1 passes the test
  `read <= 0` (`src/udp.c:156`, `src/udp.c:187`). A field longer than its limit is then read as an
  empty one if the byte before it is NUL (`Udp.OverlongNameAccepted`). `Overlong.AcceptsOverlong` gives
  all datagrams accepted in this way, and `Udp.PrintOfParse` the exact condition under which a decoded
  payload is well-formed and prints back.
- After a failed poll `STATE` is overwritten before it is tested for Start (`src/client.c:116-117`). The
  README of the repository (line 93) has SIGINT send BYE only outside Start, but a SIGINT that
  interrupts the poll in Start does lead to a BYE (`Farewell.ByeFromStart`). After a signal in Start the
  client is in End with nothing outstanding (`Farewell.SignalInStart`), and `Farewell.HushedUntilAsked`
  says for every event that may come then whether it makes the client issue a BYE, an ERR or nothing.
- Over TCP an ERR without a display name cannot be printed (`src/client.c:252-261`,
  `src/tcp.c:146-152`). A malformed message is answered with an ERR exactly when a name has been set, by
  /auth or /rename. Without a name the error stays pending, and the BYE at the end of the iteration is
  not sent either (`Farewell.SilentLeave`), unless the same iteration also handles a line that is not
  empty, which clears the error (`src/client.c:352-356`; `Farewell.NamelessBye`).
  `Farewell.MalformedOverTcp` states all that is sent in an iteration without signals.
- A TCP message is taken for BYE after three letters, and up to two arbitrary bytes may follow
  (`src/tcp.c:275-277`): `Tcp.SloppyByeAccepted`, exactly described by `Tcp.AcceptsBye`.
- A SIGINT inside a handler, right before its last assignment to `STATE`, has its End overwritten by
  that assignment. The client goes back to an earlier phase exactly when the handler obeys /auth or acts
  on a REPLY that moves the state (`src/client.c:388-389`, `src/client.c:301-306`), and is in Error exactly
  when the handler answers a packet with an ERR (`src/client.c:258-259`, `src/client.c:289-290`):
  `Interrupts.InterruptOverwrites`. Seen from Start the signal is lost (`Interrupts.SignalLost`); otherwise
  a BYE is outstanding, also in Error (`Interrupts.InterruptLeaves`, `Interrupts.ErrorWithBye`).
- After failed sends an error can be pending with nothing outstanding. A well-formed payload that then
  arrives is confirmed but never acted on (`src/client.c:239-261`): `Coherence.StrayConfirm`, with
  `Coherence.ArrivalExact` for one arrival and `Coherence.ConfirmedIsReceivedExactly` for runs.
- The message ID has 16 bits, so ordered delivery ends with the 65536th payload, in either direction:
  `Wraparound.BoundIsExact`, `Incoming.BoundIsExact`.

Where the C code has no defined result, the model takes the evident intent: the bit field starts
zeroed (`src/bit_field.c:17`), trimming stops at an empty slice (`src/bytes.c:54`), and a push must
fit behind the slice (`src/bytes.c:35-41`). The callers are proved to respect the last.

## Model

| member | source | states |
|---|---|---|
| Window.TrimSplits | src/bytes.c:51-68 | a text is a run of the byte, the trimmed text, and another run of the byte, and the trimmed text has the byte at neither end |
| Window.TrimUnique | src/bytes.c:51-68 | that decomposition determines the trimmed text, so trimming is exactly the two-sided strip |
| Window.Bytes.constructor | src/bytes.c:13-16 | a new window is empty and zeroed |
| Window.Bytes.Receive | src/udp.c:54-87 | a received datagram is the slice, with only zeros behind it |
| Window.Bytes.PushArr | src/bytes.c:32-44 | the slice grows by the bytes pushed; the zero tail stays |
| Window.Bytes.TrimBoth | src/bytes.c:51-68 | the slice becomes the trimmed text with a NUL behind it, and the result is the number of bytes removed |
| Window.Bytes.TrimEnd | src/bytes.c:54-57 | the first loop strips the right end and counts |
| Window.Bytes.TrimStart | src/bytes.c:61-65 | the second loop strips the left end, is stopped by the NUL, and counts |
| Window.Bytes.SkipFirstN | src/bytes.c:70-77 | drops min(n, len) bytes in front; the end of the slice stays where it is |
| Payloads.Count | src/payload.c:44-54 | the scanning loop yields the length of the longest run of allowed bytes, or -1 when that is over the limit |
| Payloads.Read | src/payload.c:44-61 | the destination holds exactly the run that was scanned |
| Payloads.RunLenAt | src/payload.c:47-54 | a run of allowed bytes that ends the text or meets a forbidden byte is the run the scanner finds |
| Payloads.ScanField | src/payload.c:44-61 | a legal field before a byte it does not allow is read back whole and nothing more |
| Payloads.FieldThenExact | src/tcp.c:212-225 | READ then SKIP_STR succeeds with (v, rest) if and only if the text is legal v, separator, rest |
| Payloads.StartsWith | src/tcp.c:292-295 | the result says whether the text is a prefix of the slice |
| Payloads.ReadThen | src/tcp.c:212-225 | READ and SKIP_STR over the window accept and consume exactly what the specification of a field and separator says |
| Wire.ClassesAre | src/payload.c:25-40 | by byte values, which bytes each field may hold, and how many at most (20, 128, 1400) |
| Wire.ScanExact | src/payload.c:44-61 | the scanner takes a whole run of such bytes up to that number, and returns -1 for one byte more |
| Wire.LineFits | src/commands.c:47-131 | a line of more than 1500 bytes is never understood, and a plain text of at most 1400 is understood as itself |
| Wire.ShortDatagrams | src/udp.c:94-226 | CONFIRM is the bytes 0, hi, lo and BYE the bytes 255, hi, lo, in print and parse, for the ID 256 * hi + lo |
| Wire.ReplyDatagram | src/udp.c:116-121 | whatever its text, REPLY prints to, and with a legal text is read back from, 1, hi, lo, the result, the reference ID and the text with its 0 |
| Wire.AuthDatagram | src/udp.c:123-127 | likewise AUTH is 2, hi, lo, then username, display name and secret, each with its 0 |
| Wire.JoinDatagram | src/udp.c:129-132 | likewise JOIN is 3, hi, lo, then channel and display name |
| Wire.TalkDatagrams | src/udp.c:134-142 | likewise MSG and ERR are 4 or 254, hi, lo, then display name and text |
| Wire.CutDatagram | src/udp.c:98-103 | with an error pending only the first three bytes go out, and they decode to no payload with text |
| Wire.ByeMessage | src/tcp.c:198-203 | BYE is these five bytes, and decodes in any spelling of its letters |
| Wire.ReplyMessage | src/tcp.c:168-175 | REPLY in bytes, OK or NOK, and it decodes in any spelling of its keyword |
| Wire.AuthMessage | src/tcp.c:159-166 | AUTH in bytes, with the roles of its fields, in any spelling |
| Wire.JoinMessage | src/tcp.c:177-182 | JOIN in bytes, in any spelling |
| Wire.TalkMessages | src/tcp.c:184-196 | MSG and ERR in bytes, in any spelling |
| Wire.PrintableExactly | src/tcp.c:146-157 | a payload can be printed over TCP iff it is no CONFIRM and none of its texts is empty |
| Wire.MalformedIs | src/client.c:257-257 | the reason in the ERR for a malformed packet, in bytes |
| Wire.SendFailedIs | src/client.c:437-437 | the reason in the ERR after a failed send, in bytes |
| Wire.SayIs | src/commands.c:60-74 | a message is any legal text that is no command word, alone or before a space, the six words given in bytes |
| Wire.LinesAre | src/commands.c:24-32 | the line of each command in bytes, with the roles of its arguments |
| Wire.LineIsTaken | src/commands.c:47-131 | such a line with legal arguments, between any spaces, is taken for its command |
| Tries.Trie.constructor | src/trie.c:14-27 | a new trie is one node with value -1 |
| Tries.Trie.Insert | src/trie.c:42-60 | in the heap, inserting adds exactly the prefixes of the key's path, sets the value at its end and keeps all other values |
| Tries.Trie.MatchPrefix | src/trie.c:62-75 | the pointer walk ends and returns the value at the longest path present |
| Keywords.BuiltIs | src/trie.c:42-60 | after any insertions a path is present iff it is the root or a prefix of an inserted key, and holds the value last inserted for it, or -1 |
| Keywords.MatchIsLongest | src/trie.c:62-75 | lookup answers with the value last inserted for the longest prefix of the query that some key extends, -1 if that prefix is no key |
| Keywords.DispatchExact | src/trie.c:42-75 | for prefix-free keys the trie agrees on every query with a linear scan of the table |
| Keywords.LinearScanIs | src/trie.c:62-75 | the scan gives the value of the first key that prefixes the query, -1 if none does |
| Keywords.IndexPrefix | src/trie.c:42-75 | a key's path prefixes a text's path iff the texts agree byte by byte under the index function |
| BitFields.SetBit | src/bit_field.c:35-35 | or-ing in one bit changes that bit of the byte and no other |
| BitFields.BitField.constructor | src/bit_field.c:11-24 | a new field has 8192 bytes and stands for the empty set |
| BitFields.BitField.Insert | src/bit_field.c:31-36 | the set grows by exactly this ID, all indexes in range |
| BitFields.BitField.Contains | src/bit_field.c:38-43 | the answer is membership in the set |
| Udp.ReadField | src/udp.c:185-191 | the macro over the window with 64-bit unsigned arithmetic does what FieldAt says and keeps the datagram |
| Udp.Serialize | src/udp.c:94-146 | for every payload whose texts fit their fields the buffer holds its encoding, or the header alone when an error is pending, and never overflows |
| Udp.Deserialize | src/udp.c:148-226 | the parser over the window computes Decode of the datagram |
| Udp.RoundTrip | src/udp.c:94-226 | every well-formed payload of all seven types decodes from its encoding to itself, in at most 1425 bytes |
| Udp.DecodePrinted | src/udp.c:148-226 | the same when the last terminator is missing and read from the zero tail |
| Udp.PrintOfParse | src/udp.c:148-226 | an accepted datagram prints back to itself, up to its last NUL, iff no leading name is overlong, and iff the payload is well-formed |
| Udp.AcceptsExactly | src/udp.c:148-226 | the datagrams that decode to a well-formed payload are its encoding with or without the last NUL, and no others |
| Udp.OverlongNameAccepted | src/udp.c:156-191 | a concrete datagram with 21 letters decodes to an empty display name |
| Overlong.AcceptsOverlong | src/udp.c:185-191 | a datagram is accepted with an overlong field iff it is a MSG or ERR whose text stands where the name should and whose low ID byte is 0, or an AUTH without display name, and perhaps without username in the same way; with the payload it decodes to |
| Overlong.RefusedHeader | src/udp.c:151-163 | of a refused datagram the type and ID are kept, and of one under three bytes nothing |
| Udp.DecodedHeader | src/udp.c:151-163 | a decoded payload has the type and the 16-bit ID of the first three bytes |
| Udp.HeaderOnly | src/udp.c:94-103 | a datagram cut to its header decodes only for CONFIRM and BYE |
| Tcp.Setup | src/tcp.c:37-58 | builds the trie of the six keywords |
| Tcp.EntriesPrefixFree | src/tcp.c:41-49 | no keyword path prefixes another |
| Tcp.IndexIsLetter | src/tcp.c:297-302 | two bytes have the same index, for a space or a capital letter, iff they are the same or the other is the small letter, by byte values |
| Tcp.DispatchIsKeyword | src/tcp.c:227-227 | trie dispatch names the type whose keyword begins the message, byte by byte the same or the small letter for a capital one, else -1 |
| Tcp.Serialize | src/tcp.c:142-206 | succeeds iff the payload is no CONFIRM and has no empty text, and then the buffer holds its encoding |
| Tcp.Deserialize | src/tcp.c:208-289 | the parser over the window and the trie computes Decode of the message |
| Tcp.RoundTrip | src/tcp.c:142-289 | every well-formed payload but CONFIRM prints in at most 1435 bytes and decodes to itself but for the reference ID, also when a content contains the separators |
| Tcp.AcceptsExactly | src/tcp.c:208-289 | apart from BYE a message decodes to b iff b is well-formed and the message is its keyword, in capital or small letters, and then its exact tail |
| Tcp.AcceptsBye | src/tcp.c:275-285 | a message decodes to BYE iff it begins with the three letters in any case and has at most five bytes |
| Tcp.PrintOfParse | src/tcp.c:208-302 | an accepted message equals the print of its result up to the case of the keyword, iff it is no BYE or ends in CR LF |
| Tcp.SloppyByeAccepted | src/tcp.c:275-277 | a concrete BYE with another ending is accepted |
| Commands.Setup | src/commands.c:21-40 | builds the trie of the six command words |
| Commands.EntriesPrefixFree | src/commands.c:24-32 | no command word prefixes another |
| Commands.DispatchIsCode | src/commands.c:62-63 | trie dispatch after the slash names the command word the text begins with, else none |
| Commands.ParseLine | src/commands.c:47-131 | for every NUL-free line of at most 1500 bytes the parser over the window computes Parse of the line |
| Commands.ParseExact | src/commands.c:47-149 | a line is accepted as command c iff c is valid and the space-trimmed line is the canonical rendering of c |
| Clients.ChatClient.constructor | src/client.c:158-168 | the initial client; the tries and the bit field are set up |
| Clients.ChatClient.Issue | src/payload.c:13-23 | a new outstanding payload takes the next ID of a wrapping 16-bit counter |
| Clients.ChatClient.Transmit | src/udp.c:36-48 | UDP and TCP sends as in Protocol.Transmit, with the bytes the serializers made |
| Clients.ChatClient.ClientSend | src/client.c:429-451 | the whole new state of client_send, both error branches included |
| Clients.ChatClient.HandleSignal | src/client.c:72-81 | the whole new state of handle_sigint |
| Clients.ChatClient.HandlePollError | src/client.c:114-123 | the whole new state after a failed poll |
| Clients.ChatClient.HandleTimeout | src/client.c:217-227 | the whole new state after a timeout, leaving the loop beyond the limit |
| Clients.ChatClient.HandleSocket | src/client.c:229-332 | the whole new state of client_handle_socket for any bytes received, decoded through the window and, over TCP, the trie |
| Clients.ChatClient.Process | src/client.c:264-332 | the switch over the payload type, with the ID inserted into the bit field |
| Clients.ChatClient.HandleInput | src/client.c:334-427 | the whole new state of client_handle_input for any line, overlong or with NULs in it, and for the end of input |
| Clients.ChatClient.ReadBytes | src/input.c:12-31 | the reading loop keeps the first 1501 bytes of any text and sets the error iff there are more |
| Clients.ChatClient.ParseLine | src/input.c:12-38 | reading and parsing any line yields what Understand says and leaves an error iff one was pending or the line is not understood |
| Protocol.UnderstandExact | src/client.c:334-356 | a line is taken for a command iff it has at most 1500 bytes and, up to its first NUL and trimmed, it is the canonical line of the command |
| Clients.ChatClient.Obey | src/client.c:358-426 | the switch over the command type |
| Clients.ChatClient.HandleFinish | src/client.c:145-148 | a confirmed ERR is followed by BYE at the end of an iteration |
| Clients.ChatClient.Step | src/client.c:93-153 | one move of the event loop, including what it polls |
| Clients.ChatClient.Run | src/client.c:83-156 | for every sequence of events the class ends in the state of Protocol.Run, so all statements about runs hold of it |
| Phases.PhaseMonotone | src/client.c:93-153 | over all runs, send failures included, the phases Start, Auth or NotAuth, Open, Error or End never go back |
| Phases.AuthenticationFirst | src/client.c:294-406 | any JOIN or MSG issued comes after an AUTH issued and, later than that, a positive REPLY acted on in state Auth |
| Phases.ActedOnOnce | src/client.c:239-271 | over UDP no ID is acted on twice, the received set is exactly the IDs acted on, and each was confirmed right before |
| Phases.ConfirmedWasActedOn | src/client.c:239-271 | in all runs over UDP every CONFIRM sent is for an ID acted on, or an ERR is issued right after it |
| Coherence.ArrivalExact | src/client.c:239-271 | a well-formed payload arriving over UDP with nothing outstanding is confirmed iff that send does not fail, and is acted on, now or before, iff moreover no error is pending |
| Coherence.ConfirmedIsActedOn | src/client.c:239-271 | in runs over UDP without send failures the IDs of the well-formed payloads confirmed are exactly the received ones, and each of them was acted on once and only once |
| Coherence.ConfirmedIsReceivedExactly | src/client.c:239-271 | in all runs over UDP, send failures included, confirmed and received IDs agree iff every ID confirmed while an error was pending was acted on another time |
| Coherence.StrayConfirm | src/client.c:239-261 | a concrete run with failed sends in which a well-formed payload is confirmed and not acted on |
| Phases.KeptRun | src/client.c:83-156 | all runs keep: the display name is legal once authentication began, the trace invariants above, and a zero retry count and no running timer when confirmed |
| Effects.PollIs | src/client.c:93-112 | at the loop test the client leaves iff it is in End with nothing outstanding; else it polls the socket, stdin iff nothing is outstanding and it is not in Auth, and with a timeout iff something is outstanding |
| Effects.IterationIs | src/client.c:135-148 | what is ready is handled once, in either order, and only then does the iteration end |
| Effects.SendIs | src/client.c:429-451 | whatever fails, the whole client after a send: the payload whole, or what of it went out and the ERR in its place, out or not |
| Effects.LeavingIs | src/client.c:72-148 | the whole client after a signal, a failed poll, the end of input and the end of an iteration |
| Effects.LineIs | src/client.c:334-427 | the whole client after any typed line, in terms of the canonical line it is: /rename sets the name, /help and /clear change nothing, what is not allowed or not understood changes nothing but a pending error |
| Effects.NameIsLastGiven | src/client.c:381-410 | in all runs the display name is the one given by the last /rename, or /auth obeyed, and empty before; no other event changes it |
| Effects.GivenIs | src/client.c:381-410 | a line gives a name iff no error is pending and it is a /rename, or an /auth in Start or NotAuth |
| Effects.ReceiveIs | src/udp.c:51-87 | a packet is the payload it decodes to, over TCP under the ID that was in memory, and malformed iff it decodes to none |
| Effects.NoPayloadIs | src/client.c:233-261 | a datagram from elsewhere clears the error and does nothing else; a failed receive is answered with an ERR in every state |
| Effects.RefusedIs | src/client.c:239-261 | a refused datagram is answered at once if of type 0 or too short, only leaves the error while something is outstanding, and else is confirmed by its ID and answered |
| Effects.ConfirmIs | src/client.c:273-281 | a CONFIRM with the outstanding ID confirms and resets the counter, another does nothing, and any is answered with an ERR when an error is pending |
| Effects.PayloadIs | src/client.c:239-332 | any other payload: dropped, confirmed only, or acted on, by type, over both transports |
| Effects.BudgetIsSpent | src/client.c:102-133 | in every reachable state with something outstanding over UDP there is a run in which it is sent again once for every timeout left in the budget, and one more timeout stops the client |
| Effects.AuthIsRepeated | src/client.c:102-133 | a login that is never answered sends the same nine bytes R + 1 times |
| StopAndWait.RunSettled | src/client.c:93-148 | in all runs without send failures the state decides the outstanding payload, stdin is polled only when nothing is outstanding or the client is closing, and Error is unconfirmed at the loop test |
| StopAndWait.StepWaits | src/client.c:135-143 | a step issues a chat payload only when nothing is outstanding, and otherwise keeps the outstanding payload until its own ID is confirmed or the client closes, also when one iteration runs both handlers |
| StopAndWait.ArrivalConfirmed | src/client.c:239-271 | a payload arriving over UDP is dropped while something is outstanding; else its CONFIRM goes out first, also for a repeated one, which does nothing more, while a new one is acted on |
| Farewell.TidyThroughout | src/client.c:239-250 | in runs over UDP without send failures: no error is ever pending and a closing client waits for nothing but its BYE, iff no malformed datagram is dropped while waiting and the input does not end in an overlong text |
| Farewell.TidyExactly | src/client.c:239-250 | the same for one step, in both directions |
| Farewell.ByeOrErr | src/client.c:429-451 | on a signal, a failed poll or the end of input a BYE is left outstanding iff no error is pending (and the last text fits), else an ERR |
| Farewell.ByeLostToPendingError | src/client.c:239-243 | a concrete run after which the closing client waits for the confirmation of an ERR, not of a BYE |
| Farewell.ByeLostToOverlongEnd | src/input.c:19-31 | a concrete run with the same end after 1502 bytes of input without a line end |
| Farewell.MalformedOverTcp | src/client.c:135-148 | for a malformed message over TCP and the rest of its iteration, stdin handler included: an ERR is sent iff a name is set, and then a BYE iff a name is set or a non-empty line clears the error; at an end of input the name must be set and the last bytes must fit; nothing else is sent, and the error is left pending iff there is no name and no BYE |
| Farewell.SilentLeave | src/client.c:252-261 | a concrete run over TCP in which the client leaves the loop without having sent anything |
| Farewell.NamelessBye | src/client.c:352-356 | concrete runs in which a line typed in that iteration lets the BYE out without a name |
| Farewell.SignalInStart | src/client.c:72-81 | in Start a signal, wherever it comes, issues nothing and leaves the client in End with nothing outstanding |
| Farewell.HushedUntilAsked | src/client.c:93-148 | such a client stays so, issuing nothing, until a failed poll, a second signal, an ERR or BYE received, /exit or the end of input makes it issue a BYE, or a malformed packet, an AUTH or JOIN received or an overlong end makes it issue an ERR |
| Farewell.ByeFromStart | src/client.c:114-123 | a concrete run that ends with a BYE outstanding though no AUTH was ever sent |
| Interrupts.LastWriteIs | src/client.c:229-427 | each handler's result is what it did before its last assignment to STATE and then that assignment |
| Interrupts.InterruptOverwrites | src/client.c:72-81 | with a signal right before that assignment the End is overwritten iff the handler obeys /auth, acts on a REPLY that moves the state, or answers with an ERR; the phase goes back iff it is one of the first two, and the state is Error iff it is the third |
| Interrupts.InterruptLeaves | src/client.c:72-81 | such a signal is lost if the state was still Start; else it leaves a BYE outstanding iff no error is pending, whatever the handler sets |
| Interrupts.ErrorWithBye | src/client.c:252-261 | a concrete run after which the client is in Error with a BYE outstanding |
| Interrupts.SignalLost | src/client.c:388-389 | at the first /auth such a signal changes nothing at all |
| Automaton.StateFollowsTrace | src/client.c:65-65 | in all runs without send failures STATE is where the state diagram stands after reading the payloads issued and acted on, except for three exact ways into End: stopped before anything was issued, an ERR in the place of BYE, given up after the last timeout |
| Automaton.SendReads | src/client.c:429-451 | client_send moves the diagram along its payload's edge iff no error is pending and the payload can be printed, else to Error |
| Retransmission.TimeoutBound | src/client.c:102-133 | in all runs, send failures included, there are at most R * (matching CONFIRMs + 1) + 1 timeouts, and confirmed means a zero count |
| Retransmission.QuietWindow | src/client.c:217-227 | from any point of a run, without a matching CONFIRM at most R timeouts repeat the datagram and one more ends the run |
| Retransmission.ExpireResends | src/client.c:217-227 | in all runs, send failures included, a timeout within the limit resends the same payload under the same ID, or sets the error if that send fails; beyond it nothing is sent and the run ends |
| Retransmission.TimeoutsCounted | src/client.c:276-280 | the conservation law behind the bounds: timeouts are paid for by matching CONFIRMs and the counter's gain |
| Retransmission.QuitRun | src/client.c:93-133 | over all runs, send failures included, the loop is left only in End with the last payload confirmed, or with the retransmission budget spent |
| Retransmission.ShutdownTerminates | src/client.c:93-153 | from Error or End at the loop test with something outstanding, an error pending or not, every run without send failures takes at most 2R + 1 timeouts and R + 1 more for each signal and each malformed packet, and has then left the loop or is confirmed in End |
| Retransmission.ShutdownBound | src/client.c:72-153 | the measure behind it: timeouts taken plus timeouts left never exceed the initial ones plus the price of the disturbances |
| Delivery.OrderedDelivery | src/client.c:93-143 | over any losing, repeating, reordering network and a server that confirms only what it received, the server hears a prefix of the AUTH, JOIN and MSG payloads issued, lacking at most the last, and lacking none when nothing is outstanding |
| Delivery.WhatIsHeard | src/udp.c:94-226 | a datagram of the client decodes at the server to the payload it was made from, or to no chat payload |
| Delivery.PlaySound | src/client.c:83-156 | the invariant of client and server together over every play |
| Wraparound.BoundIsExact | src/payload.c:13-23 | ordered delivery holds of all plays with at most n payloads iff n <= 65536, because the counter has 16 bits |
| Wraparound.Talk | src/payload.c:13-23 | for every n > 0 a play exists in which n chat payloads are sent and confirmed while the server has heard min(n, 65536) of them |
| Incoming.OrderedReception | src/client.c:229-271 | over any losing, repeating, reordering network and a server that sends its next payload only once the last is confirmed, the client acts on the server's payloads in order, each once, lacking at most the last, and none once the last is confirmed |
| Incoming.StepAdds | src/client.c:239-271 | a step acts on the payload that arrives iff nothing is outstanding and its ID is new, and otherwise confirms received IDs only |
| Incoming.GarbageAcknowledges | src/client.c:239-250 | a concrete play in which a malformed datagram with the ID of an unread payload makes the server take that payload for received |
| Incoming.BoundIsExact | src/bit_field.c:31-43 | this holds of all plays with at most n payloads iff n <= 65536, because the received set never forgets an ID |
| Stream.SentAsIssued | src/tcp.c:98-116 | in all TCP runs, send failures included, bytes are sent only right after their payload was issued and are its encoding: never twice and never out of order |
| Stream.ChatsArriveInOrder | src/client.c:350-451 | in TCP runs without send failures the AUTH, JOIN and MSG payloads sent are exactly those issued, in order, and the bytes of each decode to it |
| Typed.TypedIsDecoded | src/client.c:334-410 | in every reachable state any line makes the client issue AUTH, JOIN or MSG iff it fits and, up to a NUL and trimmed, is the canonical line of a valid command the state allows and no error is pending; the bytes sent then decode, over either transport, to the typed fields and the current display name |
| Typed.ObeyTyped | src/client.c:358-406 | the same for a parsed command |

## Left out

- Sockets, `epoll`, DNS lookup and connecting (`src/connection.c`, `src/tcp.c:64-140`, `src/udp.c:19-34`): foreign calls, replaced by events and a trace.
- The sender's address: a datagram from elsewhere is an event of its own, and the change of port (`src/udp.c:78-80`) is not modelled.
- The clock (`src/time.c`): a timeout may happen whenever something is outstanding.
- Terminal output and log macros.
- The command parser's walk over an overlong line, whose result is discarded because the error is set, and the write of a terminator one byte past a full buffer (`src/input.c:33-35`).
- `client_shutdown`.
- Phases.PhaseMonotone: signals come between handler calls, and between the poll and the handlers. It fails with a signal inside a handler; Interrupts.InterruptOverwrites says for which handlers. Other places inside a handler are not modelled.
- Window.Bytes.PushArr: requires that the bytes fit behind the slice; where they do not, the C function writes past its array (and sets the error only if offset is left out of account). All callers are proved to keep within it.
- Window.Bytes.TrimBoth: requires room for the terminator and another byte than NUL; otherwise the C function writes past its array, or runs on past the slice. Its one caller is proved to keep within it.
- Argument parsing, `src/main.c` and the empty `src/server.c`.
- Memory allocation failure and freeing.
- Failed initialisation (`src/client.c:86-89`): the client starts only when everything was set up.
- TCP segmentation: one receive is one message. The ID of a received TCP payload is never set; it is an arbitrary value of the event.
- TCP trie walk over a completely full buffer: the byte behind it is taken to be NUL.
- Local send failures: in the phase, confirmation and timeout-count results they are included; StopAndWait, Automaton, Farewell, Delivery, Incoming, Typed, the second result of Stream, Coherence.ConfirmedIsActedOn and the shutdown bound are about runs without them.
- Incoming.OrderedReception: a malformed datagram may come only while something is outstanding or with an ID already received; it is confirmed like a payload (`src/client.c:239-250`), and Incoming.GarbageAcknowledges shows what one with a fresh ID does.
- Delivery.OrderedDelivery: up to 65536 payloads, which Wraparound.BoundIsExact proves to be all that can be promised.
