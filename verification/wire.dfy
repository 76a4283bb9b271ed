/**
 The formats in numbers: which bytes a text may hold, what the datagrams and messages look like byte
 by byte, and how the command lines are spelled.
 */
module Wire {
  import opened Window
  import opened Payloads
  import Commands
  import Protocol
  import Udp
  import Tcp

  // ---------------------------------------------------------------- characters and sizes

  predicate IdChar(b: byte) {
    b == 45 || 48 <= b <= 57 || 65 <= b <= 90 || 97 <= b <= 122
  }

  predicate InClass(f: Field, b: byte) {
    match f
    case Username => IdChar(b)
    case ChannelId => IdChar(b)
    case Secret => IdChar(b)
    case DisplayName => 33 <= b <= 126
    case Content => 32 <= b <= 126
  }

  function Most(f: Field): nat {
    match f
    case Username => 20
    case ChannelId => 20
    case Secret => 128
    case DisplayName => 20
    case Content => 1400
  }

  /** A legal text: from one byte to the most, all of the class. */
  predicate Legal(f: Field, s: seq<byte>) {
    1 <= |s| <= Most(f) && forall i :: 0 <= i < |s| ==> InClass(f, s[i])
  }

  lemma ClassesAre(f: Field, b: byte)
    ensures Allows(f, b) <==> InClass(f, b)
    ensures Limit(f) == Most(f)
  {
  }

  lemma LegalIsFieldOk(f: Field, s: seq<byte>)
    ensures FieldOk(f, s) <==> Legal(f, s)
  {
    hide Allows, InClass, Limit, Most;
    ClassesAre(f, NUL);
    forall i | 0 <= i < |s|
      ensures Allows(f, s[i]) <==> InClass(f, s[i])
    {
      ClassesAre(f, s[i]);
    }
  }

  /** The scanner takes a run of such bytes up to the most, and refuses one byte more. */
  lemma ScanExact(f: Field, t: seq<byte>, n: nat)
    requires n <= |t| && forall i :: 0 <= i < n ==> InClass(f, t[i])
    requires n == |t| || !InClass(f, t[n])
    ensures Scan(f, t) == if n <= Most(f) then n else -1
  {
    hide Allows, InClass, Limit, Most, RunLen;
    ClassesAre(f, NUL);
    forall i | 0 <= i < |t|
      ensures Allows(f, t[i]) <==> InClass(f, t[i])
    {
      ClassesAre(f, t[i]);
    }
    RunLenAt(f, t, n);
  }

  /** A legal message text that no command word and no space can begin, and no space end. */
  predicate Plain(text: seq<byte>) {
    Legal(Content, text) && text[0] != 47 && text[0] != 32 && text[|text| - 1] != 32
  }

  /** A buffer holds 1501 bytes, so a line has room for 1500 and its terminator. */
  lemma LineFits(text: seq<byte>)
    ensures BYTES_SIZE == 1501
    ensures Protocol.Understand(text).Some? ==> |text| <= 1500
    ensures Plain(text) ==> Protocol.Understand(text) == Some(Commands.Say(text))
  {
    hide Protocol.Understand, Commands.ValidCommand, Commands.Render, Trim, Plain, Protocol.CString;
    if Protocol.Understand(text).Some? {
      Protocol.UnderstandExact(text, Protocol.Understand(text).value);
    }
    if Plain(text) {
      PlainText(text);
      TrimUnique([], text, [], SPACE);
      assert [] + text + [] == text;
      Protocol.UnderstandExact(text, Commands.Say(text));
    }
  }

  lemma PlainText(text: seq<byte>)
    requires Plain(text)
    ensures Commands.ValidCommand(Commands.Say(text)) && Commands.Render(Commands.Say(text)) == text
    ensures |text| < BYTES_SIZE && NoEdge(text, SPACE) && Protocol.CString(text) == text
  {
    hide Commands.ValidCommand, Protocol.CString;
    assert NUL !in text;
    WholeCString(text);
    assert !Begins(text, SLASH_AUTH) && !Begins(text, SLASH_JOIN) && !Begins(text, SLASH_RENAME);
    assert !Begins(text, SLASH_HELP) && !Begins(text, SLASH_CLEAR) && !Begins(text, SLASH_EXIT);
    SayIs(text);
  }

  // ---------------------------------------------------------------- the datagrams

  /** The datagram is what the payload prints to, and it decodes to it, also without its last byte. */
  predicate Datagram(p: Payload, d: seq<byte>) {
    && Udp.Encode(p) == d && Udp.Decode(d) == Udp.Good(p)
    && (|d| > 3 ==> Udp.Decode(d[..|d| - 1]) == Udp.Good(p))
  }

  /** The payload prints to the datagram, whatever its texts; when they are legal it is read back too. */
  predicate Printed(p: Payload, d: seq<byte>, legal: bool) {
    Udp.Encode(p) == d && (legal ==> Datagram(p, d))
  }

  lemma DatagramIs(p: Payload, d: seq<byte>)
    requires WellFormed(p.body) && Udp.Encode(p) == d && |d| >= 3
    requires |d| > 3 ==> d[|d| - 1] == 0 && !p.body.Confirm? && !p.body.Bye?
    ensures Datagram(p, d)
  {
    hide Udp.Encode, Udp.Decode, WellFormed;
    Udp.RoundTrip(p);
    if |d| > 3 {
      assert d == d[..|d| - 1] + [NUL];
      Udp.DecodePrinted(p, d[..|d| - 1]);
    }
  }

  lemma IdSplits(hi: byte, lo: byte)
    ensures (256 * hi + lo) / 256 == hi && (256 * hi + lo) % 256 == lo && 256 * hi + lo < 0x1_0000
  {
  }

  lemma ShortDatagrams(hi: byte, lo: byte)
    ensures Datagram(Payload(256 * hi + lo, Confirm), [0, hi, lo])
    ensures Datagram(Payload(256 * hi + lo, Bye), [255, hi, lo])
  {
    hide Udp.Decode;
    IdSplits(hi, lo);
    DatagramIs(Payload(256 * hi + lo, Confirm), [0, hi, lo]);
    DatagramIs(Payload(256 * hi + lo, Bye), [255, hi, lo]);
  }

  lemma ReplyDatagram(hi: byte, lo: byte, ok: bool, rhi: byte, rlo: byte, text: seq<byte>)
    ensures Printed(Payload(256 * hi + lo, Reply(result := ok, refId := 256 * rhi + rlo, content := text)),
                    [1, hi, lo] + [if ok then 1 else 0] + [rhi, rlo] + text + [0],
                    Legal(Content, text))
  {
    hide Udp.Decode, Legal, FieldOk;
    IdSplits(hi, lo);
    IdSplits(rhi, rlo);
    LegalIsFieldOk(Content, text);
    var p := Payload(256 * hi + lo, Reply(result := ok, refId := 256 * rhi + rlo, content := text));
    var d := [1, hi, lo] + [if ok then 1 else 0] + [rhi, rlo] + text + [0];
    assert Udp.Encode(p) == d;
    if Legal(Content, text) {
      DatagramIs(p, d);
    }
  }

  lemma AuthDatagram(hi: byte, lo: byte, user: seq<byte>, name: seq<byte>, secret: seq<byte>)
    ensures Printed(Payload(256 * hi + lo, Auth(username := user, displayName := name, secret := secret)),
                    [2, hi, lo] + user + [0] + name + [0] + secret + [0],
                    Legal(Username, user) && Legal(DisplayName, name) && Legal(Secret, secret))
  {
    hide Udp.Decode, Legal, FieldOk;
    IdSplits(hi, lo);
    LegalIsFieldOk(Username, user);
    LegalIsFieldOk(DisplayName, name);
    LegalIsFieldOk(Secret, secret);
    var p := Payload(256 * hi + lo, Auth(username := user, displayName := name, secret := secret));
    var d := [2, hi, lo] + user + [0] + name + [0] + secret + [0];
    assert Udp.Encode(p) == d;
    if Legal(Username, user) && Legal(DisplayName, name) && Legal(Secret, secret) {
      DatagramIs(p, d);
    }
  }

  lemma JoinDatagram(hi: byte, lo: byte, channel: seq<byte>, name: seq<byte>)
    ensures Printed(Payload(256 * hi + lo, Join(channelId := channel, displayName := name)),
                    [3, hi, lo] + channel + [0] + name + [0],
                    Legal(ChannelId, channel) && Legal(DisplayName, name))
  {
    hide Udp.Decode, Legal, FieldOk;
    IdSplits(hi, lo);
    LegalIsFieldOk(ChannelId, channel);
    LegalIsFieldOk(DisplayName, name);
    var p := Payload(256 * hi + lo, Join(channelId := channel, displayName := name));
    var d := [3, hi, lo] + channel + [0] + name + [0];
    assert Udp.Encode(p) == d;
    if Legal(ChannelId, channel) && Legal(DisplayName, name) {
      DatagramIs(p, d);
    }
  }

  lemma TalkDatagrams(hi: byte, lo: byte, name: seq<byte>, text: seq<byte>)
    ensures Printed(Payload(256 * hi + lo, Message(displayName := name, content := text)),
                    [4, hi, lo] + name + [0] + text + [0],
                    Legal(DisplayName, name) && Legal(Content, text))
    ensures Printed(Payload(256 * hi + lo, Err(displayName := name, content := text)),
                    [254, hi, lo] + name + [0] + text + [0],
                    Legal(DisplayName, name) && Legal(Content, text))
  {
    hide Udp.Decode, Legal, FieldOk;
    IdSplits(hi, lo);
    LegalIsFieldOk(DisplayName, name);
    LegalIsFieldOk(Content, text);
    var p := Payload(256 * hi + lo, Message(displayName := name, content := text));
    var d := [4, hi, lo] + name + [0] + text + [0];
    assert Udp.Encode(p) == d;
    if Legal(DisplayName, name) && Legal(Content, text) {
      DatagramIs(p, d);
    }
    var q := Payload(256 * hi + lo, Err(displayName := name, content := text));
    var e := [254, hi, lo] + name + [0] + text + [0];
    assert Udp.Encode(q) == e;
    if Legal(DisplayName, name) && Legal(Content, text) {
      DatagramIs(q, e);
    }
  }

  /** What is left of a datagram sent while an error is pending: its first three bytes. */
  lemma CutDatagram(p: Payload)
    ensures Udp.Datagram(p, true) == Udp.Encode(p)[..3] && |Udp.Datagram(p, true)| == 3
    ensures Udp.Decode(Udp.Datagram(p, true)).Good? ==> p.body.Confirm? || p.body.Bye?
    ensures Udp.Datagram(p, false) == Udp.Encode(p)
  {
    hide Udp.Decode, Udp.Text;
    Udp.HeaderOnly(p);
    assert Udp.Encode(p)[..3] == Udp.Header(p);
  }

  // ---------------------------------------------------------------- the messages

  const AS: seq<byte> := [32, 65, 83, 32]
  const IS: seq<byte> := [32, 73, 83, 32]
  const USING: seq<byte> := [32, 85, 83, 73, 78, 71, 32]
  const CRLF: seq<byte> := [13, 10]

  lemma SeparatorsAre()
    ensures Tcp.AS == AS && Tcp.IS == IS && Tcp.USING == USING && Tcp.CRLF == CRLF
    ensures Tcp.OK_IS == [79, 75, 32, 73, 83, 32] && Tcp.N == [78]
  {
  }

  lemma KeywordsAre()
    ensures Tcp.KW_JOIN == [74, 79, 73, 78, 32] && Tcp.KW_AUTH == [65, 85, 84, 72, 32]
    ensures Tcp.KW_MSG == [77, 83, 71, 32, 70, 82, 79, 77, 32] && Tcp.KW_ERR == [69, 82, 82, 32, 70, 82, 79, 77, 32]
    ensures Tcp.KW_REPLY == [82, 69, 80, 76, 89, 32] && Tcp.KW_BYE == [66, 89, 69]
  {
  }

  /** The keyword may be written in small letters, byte by byte. */
  predicate Spelled(k: seq<byte>, capitals: seq<byte>) {
    |k| == |capitals|
    && forall i :: 0 <= i < |k| ==> k[i] == capitals[i] || (65 <= capitals[i] <= 90 && k[i] == capitals[i] + 32)
  }

  /** The payload prints to the message with `capitals`; when its texts are legal, any spelling is read back. */
  ghost predicate Reads(b: Body, capitals: seq<byte>, t: seq<byte>, legal: bool) {
    && Tcp.Encode(b) == capitals + t
    && (legal ==> forall k :: Spelled(k, capitals) ==> Tcp.Decode(k + t) == Some(b))
  }

  lemma ReadsIs(b: Body, capitals: seq<byte>, t: seq<byte>, legal: bool)
    requires (legal ==> WellFormed(b)) && !b.Confirm? && b == Tcp.Carried(b)
    requires Tcp.KeywordOf(b) == capitals && Tcp.Tail(b) == t && (b.Bye? ==> |t| <= 2 && |capitals| == 3)
    ensures Reads(b, capitals, t, legal)
  {
    hide Tcp.Decode, Tcp.Tail, WellFormed, Tcp.KeywordOf;
    forall k | legal && Spelled(k, capitals)
      ensures Tcp.Decode(k + t) == Some(b)
    {
      SpelledStarts(k, capitals, t);
      if b.Bye? {
        ByeKeyword(b);
        Tcp.AcceptsBye(k + t);
      } else {
        Tcp.AcceptsExactly(k + t, b);
      }
    }
  }

  lemma ByeKeyword(b: Body)
    requires b.Bye?
    ensures Tcp.KeywordOf(b) == Tcp.KW_BYE
  {
  }

  lemma SpelledStarts(k: seq<byte>, capitals: seq<byte>, t: seq<byte>)
    requires Spelled(k, capitals)
    ensures Tcp.StartsLike(k + t, capitals) && (k + t)[|capitals|..] == t
  {
  }

  lemma ByeMessage()
    ensures Reads(Bye, [66, 89, 69], [13, 10], true)
  {
    hide Tcp.Decode, Reads;
    KeywordsAre();
    SeparatorsAre();
    ReadsIs(Bye, [66, 89, 69], [13, 10], true);
  }

  lemma ReplyMessage(ok: bool, text: seq<byte>)
    ensures Reads(Reply(result := ok, refId := 0, content := text),
                  [82, 69, 80, 76, 89, 32], (if ok then [] else [78]) + [79, 75, 32, 73, 83, 32] + text + [13, 10],
                  Legal(Content, text))
  {
    hide Tcp.Decode, Reads, Legal, FieldOk;
    LegalIsFieldOk(Content, text);
    var legal := Legal(Content, text);
    KeywordsAre();
    SeparatorsAre();
    var b := Reply(result := ok, refId := 0, content := text);
    var t := (if ok then [] else [78]) + [79, 75, 32, 73, 83, 32] + text + [13, 10];
    assert Tcp.Tail(b) == t;
    ReadsIs(b, [82, 69, 80, 76, 89, 32], t, legal);
  }

  lemma AuthMessage(user: seq<byte>, name: seq<byte>, secret: seq<byte>)
    ensures Reads(Auth(username := user, displayName := name, secret := secret),
                  [65, 85, 84, 72, 32],
                  user + [32, 65, 83, 32] + name + [32, 85, 83, 73, 78, 71, 32] + secret + [13, 10],
                  Legal(Username, user) && Legal(DisplayName, name) && Legal(Secret, secret))
  {
    hide Tcp.Decode, Reads, Legal, FieldOk;
    LegalIsFieldOk(Username, user);
    LegalIsFieldOk(DisplayName, name);
    LegalIsFieldOk(Secret, secret);
    var legal := Legal(Username, user) && Legal(DisplayName, name) && Legal(Secret, secret);
    KeywordsAre();
    SeparatorsAre();
    var b := Auth(username := user, displayName := name, secret := secret);
    var t := user + [32, 65, 83, 32] + name + [32, 85, 83, 73, 78, 71, 32] + secret + [13, 10];
    assert Tcp.Tail(b) == t;
    ReadsIs(b, [65, 85, 84, 72, 32], t, legal);
  }

  lemma JoinMessage(channel: seq<byte>, name: seq<byte>)
    ensures Reads(Join(channelId := channel, displayName := name),
                  [74, 79, 73, 78, 32], channel + [32, 65, 83, 32] + name + [13, 10],
                  Legal(ChannelId, channel) && Legal(DisplayName, name))
  {
    hide Tcp.Decode, Reads, Legal, FieldOk;
    LegalIsFieldOk(ChannelId, channel);
    LegalIsFieldOk(DisplayName, name);
    var legal := Legal(ChannelId, channel) && Legal(DisplayName, name);
    KeywordsAre();
    SeparatorsAre();
    var b := Join(channelId := channel, displayName := name);
    var t := channel + [32, 65, 83, 32] + name + [13, 10];
    assert Tcp.Tail(b) == t;
    ReadsIs(b, [74, 79, 73, 78, 32], t, legal);
  }

  lemma TalkMessages(name: seq<byte>, text: seq<byte>)
    ensures Reads(Message(displayName := name, content := text),
                  [77, 83, 71, 32, 70, 82, 79, 77, 32], name + [32, 73, 83, 32] + text + [13, 10],
                  Legal(DisplayName, name) && Legal(Content, text))
    ensures Reads(Err(displayName := name, content := text),
                  [69, 82, 82, 32, 70, 82, 79, 77, 32], name + [32, 73, 83, 32] + text + [13, 10],
                  Legal(DisplayName, name) && Legal(Content, text))
  {
    hide Tcp.Decode, Reads, Legal, FieldOk;
    LegalIsFieldOk(DisplayName, name);
    LegalIsFieldOk(Content, text);
    var legal := Legal(DisplayName, name) && Legal(Content, text);
    KeywordsAre();
    SeparatorsAre();
    var t := name + [32, 73, 83, 32] + text + [13, 10];
    assert Tcp.Tail(Message(name, text)) == t && Tcp.Tail(Err(name, text)) == t;
    ReadsIs(Message(name, text), [77, 83, 71, 32, 70, 82, 79, 77, 32], t, legal);
    ReadsIs(Err(name, text), [69, 82, 82, 32, 70, 82, 79, 77, 32], t, legal);
  }

  /** The texts of a payload, in order. */
  function Texts(b: Body): seq<seq<byte>> {
    match b
    case Confirm => []
    case Bye => []
    case Reply(_, _, text) => [text]
    case Auth(user, name, secret) => [user, name, secret]
    case Join(channel, name) => [channel, name]
    case Message(name, text) => [name, text]
    case Err(name, text) => [name, text]
  }

  /** What can be printed over TCP: anything but a CONFIRM whose texts are all there. */
  lemma PrintableExactly(b: Body)
    ensures Tcp.Printable(b) <==> !b.Confirm? && [] !in Texts(b)
  {
  }

  /** The reasons the client gives in its own ERRs, word by word in ASCII. */
  lemma MalformedIs()
    ensures var t := Protocol.MalformedText();
            && |t| == 26 && t[..8] == [82, 101, 99, 101, 105, 118, 101, 100]
            && t[8..18] == [32, 109, 97, 108, 102, 111, 114, 109, 101, 100]
            && t[18..] == [32, 112, 97, 121, 108, 111, 97, 100]
  {
  }

  lemma SendFailedIs()
    ensures Protocol.SendFailedText()
            == [83, 111, 109, 101, 116, 104, 105, 110, 103, 32, 119, 101, 110, 116, 32, 119, 114, 111, 110, 103]
             + [32, 119, 104, 101, 110, 32, 116, 114, 121, 105, 110, 103, 32, 116, 111]
             + [32, 115, 101, 110, 100, 32, 112, 97, 121, 108, 111, 97, 100]
  {
    hide Ascii;
    SendFailedBegins();
    SendFailedEnds();
  }

  lemma SendFailedBegins()
    ensures Ascii("Something went wrong")
            == [83, 111, 109, 101, 116, 104, 105, 110, 103, 32, 119, 101, 110, 116, 32, 119, 114, 111, 110, 103]
  {
  }

  lemma SendFailedEnds()
    ensures Ascii(" when trying to") == [32, 119, 104, 101, 110, 32, 116, 114, 121, 105, 110, 103, 32, 116, 111]
    ensures Ascii(" send payload") == [32, 115, 101, 110, 100, 32, 112, 97, 121, 108, 111, 97, 100]
  {
  }

  // ---------------------------------------------------------------- the command lines

  const SLASH_AUTH: seq<byte> := [47, 97, 117, 116, 104]
  const SLASH_JOIN: seq<byte> := [47, 106, 111, 105, 110]
  const SLASH_RENAME: seq<byte> := [47, 114, 101, 110, 97, 109, 101]
  const SLASH_HELP: seq<byte> := [47, 104, 101, 108, 112]
  const SLASH_CLEAR: seq<byte> := [47, 99, 108, 101, 97, 114]
  const SLASH_EXIT: seq<byte> := [47, 101, 120, 105, 116]

  lemma WordsAre()
    ensures Commands.W_AUTH == SLASH_AUTH && Commands.W_JOIN == SLASH_JOIN && Commands.W_RENAME == SLASH_RENAME
    ensures Commands.W_HELP == SLASH_HELP && Commands.W_CLEAR == SLASH_CLEAR && Commands.W_EXIT == SLASH_EXIT
    ensures Commands.SP == [32]
  {
  }

  /** A text begins with this word, alone or before a space. */
  predicate Begins(t: seq<byte>, w: seq<byte>) {
    t == w || w + [32] <= t
  }

  /** A message is any legal text that does not begin with a command word. */
  lemma SayIs(text: seq<byte>)
    ensures Commands.ValidCommand(Commands.Say(text)) <==>
            && Legal(Content, text)
            && !Begins(text, SLASH_AUTH) && !Begins(text, SLASH_JOIN) && !Begins(text, SLASH_RENAME)
            && !Begins(text, SLASH_HELP) && !Begins(text, SLASH_CLEAR) && !Begins(text, SLASH_EXIT)
  {
    hide Legal, FieldOk, Commands.CodeOf, Commands.IsCommand, Commands.Word, Begins;
    LegalIsFieldOk(Content, text);
    CodedWords();
    Commands.CommandOf(text);
    WordBegins(text, Commands.CMD_AUTH);
    WordBegins(text, Commands.CMD_JOIN);
    WordBegins(text, Commands.CMD_RENAME);
    WordBegins(text, Commands.CMD_HELP);
    WordBegins(text, Commands.CMD_CLEAR);
    WordBegins(text, Commands.CMD_EXIT);
    Commands.CodeRange(text);
  }

  lemma CodedWords()
    ensures Commands.Word(Commands.CMD_AUTH) == SLASH_AUTH && Commands.Word(Commands.CMD_JOIN) == SLASH_JOIN
    ensures Commands.Word(Commands.CMD_RENAME) == SLASH_RENAME && Commands.Word(Commands.CMD_HELP) == SLASH_HELP
    ensures Commands.Word(Commands.CMD_CLEAR) == SLASH_CLEAR && Commands.Word(Commands.CMD_EXIT) == SLASH_EXIT
  {
    WordsAre();
  }

  lemma WordBegins(t: seq<byte>, code: int)
    requires Commands.CMD_AUTH <= code <= Commands.CMD_EXIT
    ensures (Commands.IsCommand(t) && Commands.CodeOf(t) == code) <==> Begins(t, Commands.Word(code))
  {
    hide Commands.CodeOf, Commands.IsCommand, Commands.Word, Commands.PrefixLength;
    Commands.CommandOf(t);
    Commands.WordsDiffer(t, code);
    var w := Commands.Word(code);
    if w <= t && |w| < |t| && t[|w|] == SPACE {
      assert t[..|w| + 1] == w + [32];
    }
  }

  /** The line of each command, with the roles of its arguments by name. */
  lemma LinesAre(user: seq<byte>, secret: seq<byte>, name: seq<byte>, channel: seq<byte>)
    ensures Commands.Render(Commands.Authenticate(username := user, secret := secret, displayName := name))
            == SLASH_AUTH + [32] + user + [32] + secret + [32] + name
    ensures Commands.Render(Commands.JoinChannel(channelId := channel)) == SLASH_JOIN + [32] + channel
    ensures Commands.Render(Commands.Rename(displayName := name)) == SLASH_RENAME + [32] + name
    ensures Commands.Render(Commands.Help) == SLASH_HELP && Commands.Render(Commands.Clear) == SLASH_CLEAR
    ensures Commands.Render(Commands.Exit) == SLASH_EXIT
  {
    hide Ascii;
    WordsAre();
    Flattened(Commands.W_AUTH, Commands.SP, user, secret, name);
    Assoc(Commands.W_JOIN, Commands.SP, channel);
    Assoc(Commands.W_RENAME, Commands.SP, name);
  }

  lemma Flattened(w: seq<byte>, x: seq<byte>, a: seq<byte>, b: seq<byte>, c: seq<byte>)
    ensures w + (x + (a + (x + (b + (x + c))))) == w + x + a + x + b + x + c
  {
    Assoc(b, x, c);
    Assoc(a, x, b + x + c);
    Assoc(w, x, a + x + (b + x + c));
    Assoc(a + x, b, x + c);
  }

  lemma Assoc(a: seq<byte>, b: seq<byte>, c: seq<byte>)
    ensures a + (b + c) == a + b + c
  {
  }

  /** Every line of a command with legal arguments, spaces around it or not, is taken for that command. */
  lemma LineIsTaken(before: seq<byte>, cmd: Commands.Command, after: seq<byte>)
    requires AllAre(before, 32) && AllAre(after, 32) && Proper(cmd)
    requires |before| + |Commands.Render(cmd)| + |after| <= 1500
    ensures Protocol.Understand(before + Commands.Render(cmd) + after) == Some(cmd)
  {
    hide Protocol.Understand, Commands.ValidCommand, Commands.Render, Trim, Legal, Protocol.CString, Proper;
    var line := before + Commands.Render(cmd) + after;
    ProperIsValid(cmd);
    RenderedClean(cmd);
    TrimUnique(before, Commands.Render(cmd), after, SPACE);
    assert NUL !in line;
    WholeCString(line);
    Protocol.UnderstandExact(line, cmd);
  }

  predicate Proper(cmd: Commands.Command) {
    match cmd
    case Say(_) => false
    case Authenticate(user, secret, name) => Legal(Username, user) && Legal(Secret, secret) && Legal(DisplayName, name)
    case JoinChannel(channel) => Legal(ChannelId, channel)
    case Rename(name) => Legal(DisplayName, name)
    case _ => true
  }

  lemma ProperIsValid(cmd: Commands.Command)
    ensures Proper(cmd) <==> Commands.ValidCommand(cmd) && !cmd.Say?
  {
    hide Legal, FieldOk;
    match cmd
    case Authenticate(user, secret, name) =>
      LegalIsFieldOk(Username, user);
      LegalIsFieldOk(Secret, secret);
      LegalIsFieldOk(DisplayName, name);
    case JoinChannel(channel) => LegalIsFieldOk(ChannelId, channel);
    case Rename(name) => LegalIsFieldOk(DisplayName, name);
    case _ =>
  }

  lemma WholeCString(s: seq<byte>)
    requires NUL !in s
    ensures Protocol.CString(s) == s
  {
    assert Protocol.CString(s) <= s;
  }

  /** No NUL, and a space at neither end. */
  predicate Clean(s: seq<byte>) {
    s != [] && NUL !in s && s[0] != SPACE && s[|s| - 1] != SPACE
  }

  lemma LegalIsClean(f: Field, s: seq<byte>)
    requires Legal(f, s) && !f.Content?
    ensures Clean(s)
  {
  }

  /** Clean texts with a space between them are clean. */
  lemma CleanJoined(a: seq<byte>, b: seq<byte>)
    requires Clean(a) && Clean(b)
    ensures Clean(a + [32] + b)
  {
  }

  lemma WordsAreClean()
    ensures Clean(SLASH_AUTH) && Clean(SLASH_JOIN) && Clean(SLASH_RENAME)
    ensures Clean(SLASH_HELP) && Clean(SLASH_CLEAR) && Clean(SLASH_EXIT)
  {
  }

  lemma RenderedClean(cmd: Commands.Command)
    requires Proper(cmd)
    ensures Clean(Commands.Render(cmd))
  {
    hide Clean, Legal, Commands.Render;
    WordsAreClean();
    match cmd
    case Authenticate(user, secret, name) =>
      LinesAre(user, secret, name, []);
      LegalIsClean(Username, user);
      LegalIsClean(Secret, secret);
      LegalIsClean(DisplayName, name);
      CleanJoined(SLASH_AUTH, user);
      CleanJoined(SLASH_AUTH + [32] + user, secret);
      CleanJoined(SLASH_AUTH + [32] + user + [32] + secret, name);
    case JoinChannel(channel) =>
      LinesAre([], [], [], channel);
      LegalIsClean(ChannelId, channel);
      CleanJoined(SLASH_JOIN, channel);
    case Rename(name) =>
      LinesAre([], [], name, []);
      LegalIsClean(DisplayName, name);
      CleanJoined(SLASH_RENAME, name);
    case _ => LinesAre([], [], [], []);
  }
}
