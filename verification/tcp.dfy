/** The text codec of src/tcp.c: a keyword found by a trie, then fields between fixed separators. */
module Tcp {
  import opened Window
  import opened Payloads
  import opened Tries
  import opened Keywords

  /** tcp_prefix_index: a space, or a letter of either case (setting bit 5 makes it lower case). */
  function PrefixIndex(ch: byte): (i: int)
    ensures -1 <= i < ARITY
  {
    if ch == SPACE then 26
    else
      var low := if ch / 32 % 2 == 0 then ch + 32 else ch;
      if 'a' as int <= low <= 'z' as int then low - 'a' as int else -1
  }

  const KW_JOIN := Ascii("JOIN ")
  const KW_AUTH := Ascii("AUTH ")
  const KW_MSG := Ascii("MSG FROM ")
  const KW_ERR := Ascii("ERR FROM ")
  const KW_REPLY := Ascii("REPLY ")
  const KW_BYE := Ascii("BYE")
  const CRLF := Ascii("\r\n")
  const AS := Ascii(" AS ")
  const USING := Ascii(" USING ")
  const IS := Ascii(" IS ")
  const OK_IS := Ascii("OK IS ")
  const N := Ascii("N")

  /** `a` is the byte `b` or, if that is a capital letter, the small one. */
  predicate SameLetter(a: byte, b: byte) {
    a == b || (65 <= b <= 90 && a == b + 32)
  }

  /** For a space and the capital letters, the ones keywords are made of, the index tells just that. */
  lemma IndexIsLetter(a: byte, b: byte)
    requires b == 32 || 65 <= b <= 90
    ensures PrefixIndex(a) == PrefixIndex(b) <==> SameLetter(a, b)
    ensures PrefixIndex(b) == if b == 32 then 26 else b - 65
  {
  }

  /** `w` begins with the keyword `k`, in capital or small letters. */
  predicate StartsLike(w: seq<byte>, k: seq<byte>) {
    |k| <= |w| && forall i :: 0 <= i < |k| ==> SameLetter(w[i], k[i])
  }

  /** The type of a message by its keyword, -1 when it has none. */
  function Keyword(w: seq<byte>): int {
    if StartsLike(w, KW_JOIN) then JOIN
    else if StartsLike(w, KW_AUTH) then AUTH
    else if StartsLike(w, KW_MSG) then MESSAGE
    else if StartsLike(w, KW_ERR) then ERR
    else if StartsLike(w, KW_REPLY) then REPLY
    else if StartsLike(w, KW_BYE) then BYE
    else -1
  }

  // ---------------------------------------------------------------- printing

  function KeywordOf(b: Body): seq<byte> {
    match b
    case Confirm => []
    case Reply(_, _, _) => KW_REPLY
    case Auth(_, _, _) => KW_AUTH
    case Join(_, _) => KW_JOIN
    case Message(_, _) => KW_MSG
    case Err(_, _) => KW_ERR
    case Bye => KW_BYE
  }

  /** What follows the keyword. */
  function Tail(b: Body): seq<byte> {
    match b
    case Confirm => []
    case Reply(result, _, c) => (if result then [] else N) + (OK_IS + (c + CRLF))
    case Auth(u, d, s) => u + (AS + (d + (USING + (s + CRLF))))
    case Join(c, d) => c + (AS + (d + CRLF))
    case Message(d, c) => d + (IS + (c + CRLF))
    case Err(d, c) => d + (IS + (c + CRLF))
    case Bye => CRLF
  }

  function Encode(b: Body): seq<byte> {
    KeywordOf(b) + Tail(b)
  }

  /** The texts tcp_serialize checks for emptiness. */
  predicate Printable(b: Body) {
    match b
    case Confirm => false
    case Reply(_, _, c) => c != []
    case Auth(u, d, s) => u != [] && d != [] && s != []
    case Join(c, d) => c != [] && d != []
    case Message(d, c) => d != [] && c != []
    case Err(d, c) => d != [] && c != []
    case Bye => true
  }

  // ---------------------------------------------------------------- parsing

  /** A last field: it is followed by the line end and nothing else. */
  function LastField(f: Field, w: seq<byte>): Option<seq<byte>> {
    match FieldThen(f, w, CRLF)
    case None => None
    case Some(r) => if r.1 == [] then Some(r.0) else None
  }

  function TwoFields(f: Field, sep: seq<byte>, g: Field, w: seq<byte>): Option<(seq<byte>, seq<byte>)> {
    match FieldThen(f, w, sep)
    case None => None
    case Some(r) =>
      match LastField(g, r.1)
      case None => None
      case Some(v) => Some((r.0, v))
  }

  function DecodeAuth(w: seq<byte>): (r: Option<Body>)
    ensures r.Some? ==> r.value.Auth?
  {
    match FieldThen(Username, w, AS)
    case None => None
    case Some(u) =>
      match TwoFields(DisplayName, USING, Secret, u.1)
      case None => None
      case Some(r) => Some(Auth(u.0, r.0, r.1))
  }

  function DecodeReply(w: seq<byte>): (r: Option<Body>)
    ensures r.Some? ==> r.value.Reply? && r.value.refId == 0
  {
    var result := !(w != [] && w[0] == 'N' as int);
    var w' := if result then w else w[1..];
    if !(OK_IS <= w') then None
    else
      match LastField(Content, w'[|OK_IS|..])
      case None => None
      case Some(c) => Some(Reply(result, 0, c))
  }

  /** The parser of what follows the keyword of a type. */
  function DecodeTail(code: int, t: seq<byte>): Option<Body> {
    if code == JOIN then
      match TwoFields(ChannelId, AS, DisplayName, t)
      case None => None
      case Some(r) => Some(Join(r.0, r.1))
    else if code == AUTH then DecodeAuth(t)
    else if code == REPLY then DecodeReply(t)
    else if code == MESSAGE then
      match TwoFields(DisplayName, IS, Content, t)
      case None => None
      case Some(r) => Some(Message(r.0, r.1))
    else if code == ERR then
      match TwoFields(DisplayName, IS, Content, t)
      case None => None
      case Some(r) => Some(Err(r.0, r.1))
    else None
  }

  function KeywordLength(code: int): nat {
    if code == MESSAGE || code == ERR then 9 else if code == REPLY then 6 else 5
  }

  /** `ref_message_id` is not carried by this transport and reads as 0. */
  function Decode(w: seq<byte>): Option<Body> {
    var k := Keyword(w);
    if k == -1 then None
    else
      var t := Skip(w, KeywordLength(k));
      if k == BYE then if t == [] then Some(Bye) else None else DecodeTail(k, t)
  }

  // ---------------------------------------------------------------- fields and separators

  lemma LastFieldExact(f: Field, w: seq<byte>, v: seq<byte>)
    ensures LastField(f, w) == Some(v) <==> FieldOk(f, v) && w == v + CRLF
  {
    hide FieldThen;
    FieldThenExact(f, w, CRLF, v, []);
    assert CRLF + [] == CRLF;
  }

  lemma TwoFieldsExact(f: Field, sep: seq<byte>, g: Field, w: seq<byte>, u: seq<byte>, v: seq<byte>)
    requires Delimits(sep, f)
    ensures TwoFields(f, sep, g, w) == Some((u, v))
            <==> FieldOk(f, u) && FieldOk(g, v) && w == u + (sep + (v + CRLF))
  {
    hide FieldThen, LastField;
    FieldThenExact(f, w, sep, u, v + CRLF);
    if TwoFields(f, sep, g, w) == Some((u, v)) {
      var r := FieldThen(f, w, sep).value;
      FieldThenExact(f, w, sep, u, r.1);
      LastFieldExact(g, r.1, v);
    }
    LastFieldExact(g, v + CRLF, v);
  }

  lemma AuthExact(w: seq<byte>, u: seq<byte>, d: seq<byte>, s: seq<byte>)
    ensures DecodeAuth(w) == Some(Auth(u, d, s)) <==> WellFormed(Auth(u, d, s)) && w == Tail(Auth(u, d, s))
  {
    hide FieldThen, TwoFields;
    var rest := d + (USING + (s + CRLF));
    FieldThenExact(Username, w, AS, u, rest);
    TwoFieldsExact(DisplayName, USING, Secret, rest, d, s);
    if DecodeAuth(w) == Some(Auth(u, d, s)) {
      var r := FieldThen(Username, w, AS).value;
      FieldThenExact(Username, w, AS, u, r.1);
      TwoFieldsExact(DisplayName, USING, Secret, r.1, d, s);
    }
  }

  lemma ReplyExact(w: seq<byte>, result: bool, c: seq<byte>)
    ensures DecodeReply(w) == Some(Reply(result, 0, c)) <==> FieldOk(Content, c) && w == Tail(Reply(result, 0, c))
  {
    hide LastField;
    var rest := OK_IS + (c + CRLF);
    assert rest[|OK_IS|..] == c + CRLF;
    LastFieldExact(Content, c + CRLF, c);
    if FieldOk(Content, c) && w == Tail(Reply(result, 0, c)) {
      if result {
        assert w == rest && w[0] == 'O' as int;
      } else {
        assert w[1..] == rest && w[0] == 'N' as int;
      }
    }
    if DecodeReply(w) == Some(Reply(result, 0, c)) {
      var w' := if result then w else w[1..];
      assert w' == OK_IS + w'[|OK_IS|..];
      LastFieldExact(Content, w'[|OK_IS|..], c);
      assert w == (if result then [] else N) + w';
    }
  }

  // ---------------------------------------------------------------- the whole message

  /** The body as this transport carries it. */
  function Carried(b: Body): Body {
    if b.Reply? then b.(refId := 0) else b
  }

  /** The keywords begin with six different letters. */
  lemma FirstLetters()
    ensures PrefixIndex(KW_JOIN[0]) == 9 && PrefixIndex(KW_AUTH[0]) == 0 && PrefixIndex(KW_MSG[0]) == 12
    ensures PrefixIndex(KW_ERR[0]) == 4 && PrefixIndex(KW_REPLY[0]) == 17 && PrefixIndex(KW_BYE[0]) == 1
  {
    assert KW_JOIN[0] == 'J' as int && KW_AUTH[0] == 'A' as int && KW_MSG[0] == 'M' as int;
    assert KW_ERR[0] == 'E' as int && KW_REPLY[0] == 'R' as int && KW_BYE[0] == 'B' as int;
  }

  lemma FirstOf(w: seq<byte>, k: seq<byte>)
    requires k != []
    ensures StartsLike(w, k) ==> w != [] && SameLetter(w[0], k[0])
  {
  }

  lemma KeywordIs(w: seq<byte>, b: Body)
    requires !b.Confirm? && StartsLike(w, KeywordOf(b))
    ensures Keyword(w) == TypeCode(b)
  {
    hide StartsLike, PrefixIndex;
    assert KW_JOIN[0] == 74 && KW_AUTH[0] == 65 && KW_MSG[0] == 77;
    assert KW_ERR[0] == 69 && KW_REPLY[0] == 82 && KW_BYE[0] == 66;
    FirstOf(w, KW_JOIN);
    FirstOf(w, KW_AUTH);
    FirstOf(w, KW_MSG);
    FirstOf(w, KW_ERR);
    FirstOf(w, KW_REPLY);
    FirstOf(w, KW_BYE);
  }

  lemma TailExact(t: seq<byte>, b: Body)
    requires !b.Bye? && !b.Confirm?
    ensures DecodeTail(TypeCode(b), t) == Some(b) <==> WellFormed(b) && b == Carried(b) && t == Tail(b)
  {
    hide TwoFields, DecodeAuth, DecodeReply;
    match b
    case Reply(result, _, c) => ReplyExact(t, result, c);
    case Auth(u, d, s) => AuthExact(t, u, d, s);
    case Join(c, d) => TwoFieldsExact(ChannelId, AS, DisplayName, t, c, d);
    case Message(d, c) => TwoFieldsExact(DisplayName, IS, Content, t, d, c);
    case Err(d, c) => TwoFieldsExact(DisplayName, IS, Content, t, d, c);
  }

  lemma TailType(code: int, t: seq<byte>)
    ensures DecodeTail(code, t).Some? ==> code == TypeCode(DecodeTail(code, t).value) && code != CONFIRM && code != BYE
  {
    hide TwoFields, DecodeAuth, DecodeReply;
  }

  /** Apart from BYE, exactly these messages decode to `b`: its keyword in any case, then its text. */
  lemma AcceptsExactly(w: seq<byte>, b: Body)
    requires !b.Bye?
    ensures Decode(w) == Some(b)
            <==> !b.Confirm? && WellFormed(b) && b == Carried(b)
                 && StartsLike(w, KeywordOf(b)) && w[|KeywordOf(b)|..] == Tail(b)
  {
    hide DecodeTail, StartsLike, WellFormed, Tail;
    var k := Keyword(w);
    if k != -1 {
      TailType(k, Skip(w, KeywordLength(k)));
    }
    if !b.Confirm? {
      TailExact(Skip(w, |KeywordOf(b)|), b);
      if StartsLike(w, KeywordOf(b)) {
        KeywordIs(w, b);
        Starts(w, KeywordOf(b));
      }
    }
  }

  lemma Starts(w: seq<byte>, k: seq<byte>)
    requires StartsLike(w, k)
    ensures |k| <= |w| && Skip(w, |k|) == w[|k|..]
  {
  }

  /** A BYE is recognised by its three letters; the five bytes skipped may be fewer. */
  lemma AcceptsBye(w: seq<byte>)
    ensures Decode(w) == Some(Bye) <==> StartsLike(w, KW_BYE) && |w| <= 5
  {
    hide DecodeTail, StartsLike;
    if Keyword(w) != -1 {
      TailType(Keyword(w), Skip(w, KeywordLength(Keyword(w))));
    }
    if StartsLike(w, KW_BYE) {
      KeywordIs(w, Bye);
    }
  }

  lemma StartsWithSelf(k: seq<byte>, t: seq<byte>)
    ensures StartsLike(k + t, k) && (k + t)[|k|..] == t
  {
  }

  /** tcp_deserialize of tcp_serialize gives back the type and all the text. */
  lemma RoundTrip(b: Body)
    requires WellFormed(b) && !b.Confirm?
    ensures Printable(b) && Decode(Encode(b)) == Some(Carried(b))
    ensures |Encode(b)| <= 1435
  {
    hide Decode, StartsLike;
    StartsWithSelf(KeywordOf(b), Tail(b));
    if b.Bye? {
      AcceptsBye(Encode(b));
    } else {
      AcceptsExactly(Encode(b), Carried(b));
    }
  }

  /** `a` differs from `b` at most in small letters for capital ones among the first `n` bytes. */
  predicate SameButCase(a: seq<byte>, b: seq<byte>, n: nat) {
    && n <= |a| == |b| && a[n..] == b[n..]
    && forall i :: 0 <= i < n ==> SameLetter(a[i], b[i])
  }

  /**
   Every accepted message is what would be printed for it, up to the case of the keyword,
   except a BYE that does not end in CR LF.
   */
  lemma PrintOfParse(w: seq<byte>, b: Body)
    requires Decode(w) == Some(b)
    ensures SameButCase(w, Encode(b), |KeywordOf(b)|) <==> (b.Bye? ==> w[3..] == CRLF)
    ensures |w| >= |KeywordOf(b)| && !b.Confirm? && WellFormed(b)
  {
    hide Decode, StartsLike;
    var k := KeywordOf(b);
    if b.Bye? {
      AcceptsBye(w);
    } else {
      AcceptsExactly(w, b);
    }
    Starts(w, k);
    SameTail(w, k, Tail(b));
  }

  lemma SameTail(w: seq<byte>, k: seq<byte>, t: seq<byte>)
    requires StartsLike(w, k)
    ensures SameButCase(w, k + t, |k|) <==> w[|k|..] == t
  {
    assert (k + t)[|k|..] == t;
    if w[|k|..] == t {
      assert w == w[..|k|] + t;
    }
  }

  /** The exception is real: three letters with any two bytes after them. */
  lemma SloppyByeAccepted()
    ensures var w := KW_BYE + Ascii("XY");
            Decode(w) == Some(Bye) && !SameButCase(w, Encode(Bye), 3)
  {
    hide Decode, StartsLike;
    var w := KW_BYE + Ascii("XY");
    StartsWithSelf(KW_BYE, Ascii("XY"));
    AcceptsBye(w);
    assert w[3..][0] == 'X' as int && CRLF[0] == '\r' as int;
    PrintOfParse(w, Bye);
  }

  // ---------------------------------------------------------------- dispatch by the trie

  function Table(): seq<(seq<byte>, byte)> {
    [(KW_JOIN, JOIN), (KW_AUTH, AUTH), (KW_MSG, MESSAGE), (KW_ERR, ERR), (KW_REPLY, REPLY), (KW_BYE + CRLF, BYE)]
  }

  /** The entries tcp_setup inserts. */
  function Entries(): (es: seq<Entry>)
    ensures |es| == 6 && forall i :: 0 <= i < 6 ==> es[i] == Entry(Indexes(PrefixIndex, Table()[i].0), Table()[i].1)
  {
    seq(6, i requires 0 <= i < 6 => Entry(Indexes(PrefixIndex, Table()[i].0), Table()[i].1))
  }

  predicate Upper(s: string) {
    forall i :: 0 <= i < |s| ==> s[i] == ' ' || 'A' <= s[i] <= 'Z'
  }

  lemma KeywordsAreUpper()
    ensures Upper("JOIN ") && Upper("AUTH ") && Upper("MSG FROM ")
    ensures Upper("ERR FROM ") && Upper("REPLY ") && Upper("BYE")
  {
  }

  lemma UpperPrefix(s: string, w: seq<byte>)
    requires Upper(s)
    ensures forall i :: 0 <= i < |s| ==> PrefixIndex(Ascii(s)[i]) >= 0
    ensures Indexes(PrefixIndex, Ascii(s)) <= Indexes(PrefixIndex, w) <==> StartsLike(w, Ascii(s))
  {
    hide PrefixIndex, Indexes, SameLetter;
    var k := Ascii(s);
    forall i | 0 <= i < |s|
      ensures PrefixIndex(k[i]) >= 0
      ensures i < |w| ==> (PrefixIndex(w[i]) == PrefixIndex(k[i]) <==> SameLetter(w[i], k[i]))
    {
      IndexIsLetter(if i < |w| then w[i] else NUL, k[i]);
    }
    IndexPrefix(PrefixIndex, k, w);
  }

  /** The path of a table key prefixes the path of a message exactly when the message starts like it. */
  lemma EntryPrefix(i: nat, w: seq<byte>)
    requires i < 6
    ensures var k := [KW_JOIN, KW_AUTH, KW_MSG, KW_ERR, KW_REPLY, KW_BYE][i];
            Entries()[i].key <= Indexes(PrefixIndex, w) <==> StartsLike(w, k)
  {
    hide StartsLike, Indexes, PrefixIndex, Ascii, Upper;
    KeywordsAreUpper();
    match i {
      case 0 => UpperPrefix("JOIN ", w);
      case 1 => UpperPrefix("AUTH ", w);
      case 2 => UpperPrefix("MSG FROM ", w);
      case 3 => UpperPrefix("ERR FROM ", w);
      case 4 => UpperPrefix("REPLY ", w);
      case _ =>
        UpperPrefix("BYE", w);
        ByeStops();
    }
  }

  lemma ByeStops()
    ensures Indexes(PrefixIndex, KW_BYE + CRLF) == Indexes(PrefixIndex, KW_BYE)
  {
    assert KW_BYE[0] == 'B' as int && KW_BYE[1] == 'Y' as int && KW_BYE[2] == 'E' as int && CRLF[0] == '\r' as int;
    IndexesStop(PrefixIndex, KW_BYE, CRLF);
  }

  lemma FirstIndex(k: seq<byte>)
    requires k != [] && PrefixIndex(k[0]) >= 0
    ensures Indexes(PrefixIndex, k) != [] && Indexes(PrefixIndex, k)[0] == PrefixIndex(k[0])
  {
  }

  lemma EntryFirst(i: nat)
    requires i < 6
    ensures Entries()[i].key != [] && Entries()[i].key[0] == [9, 0, 12, 4, 17, 1][i]
  {
    hide Indexes, PrefixIndex, Ascii;
    FirstLetters();
    FirstIndex(Table()[i].0);
  }

  lemma EntriesPrefixFree()
    ensures PrefixFree(Entries())
  {
    hide Indexes;
    forall i: nat | i < 6
      ensures Entries()[i].key != [] && Entries()[i].key[0] == [9, 0, 12, 4, 17, 1][i]
    {
      EntryFirst(i);
    }
    DistinctFirst(Entries(), [9, 0, 12, 4, 17, 1]);
  }

  /** The trie that tcp_setup builds names the type of every message. */
  lemma DispatchIsKeyword(w: seq<byte>)
    ensures Match(Built(Entries()), Indexes(PrefixIndex, w)) == Keyword(w)
  {
    hide Built, Match, StartsLike, Indexes, PrefixIndex;
    var q := Indexes(PrefixIndex, w);
    EntriesPrefixFree();
    DispatchExact(Entries(), q);
    var i := LinearScanIs(Entries(), q);
    EntryPrefix(0, w);
    EntryPrefix(1, w);
    EntryPrefix(2, w);
    EntryPrefix(3, w);
    EntryPrefix(4, w);
    EntryPrefix(5, w);
    assert i < 6 ==> Entries()[i].value == [JOIN, AUTH, MESSAGE, ERR, REPLY, BYE][i];
  }

  // ---------------------------------------------------------------- the code over the byte window

  /** tcp_setup. */
  method Setup() returns (trie: Trie)
    ensures fresh(trie.Repr) && trie.Valid() && trie.toIndex == PrefixIndex
    ensures trie.Nodes == Built(Entries())
  {
    hide Built, Inserted, Indexes, Ascii, Entries, Trie.Valid;
    trie := new Trie(PrefixIndex);
    var table := Table();
    ghost var es := Entries();
    var i := 0;
    BuiltEmpty(es);
    while i < |table|
      invariant 0 <= i <= 6 && trie.Valid() && trie.toIndex == PrefixIndex && fresh(trie.Repr)
      invariant trie.Nodes == Built(es[..i])
    {
      trie.Insert(table[i].0, table[i].1);
      BuiltStep(es, i);
      i := i + 1;
    }
    assert es[..6] == es;
  }

  /** The PUSH macro, which refuses an empty text. */
  method Push(buf: Bytes, text: seq<byte>) returns (ok: bool)
    requires buf.Valid() && buf.offset == 0 && buf.len + |text| <= BYTES_SIZE
    modifies buf`len, buf.data
    ensures buf.Valid() && buf.offset == 0
    ensures ok == (text != [])
    ensures buf.View() == old(buf.View()) + text
  {
    if text == [] {
      return false;
    }
    buf.PushArr(text);
    ok := true;
  }

  /** A PUSH sequence for two texts with separators, ended by the line end. */
  method PushTwo(buf: Bytes, v: seq<byte>, sep: seq<byte>, w: seq<byte>) returns (ok: bool)
    requires buf.Valid() && buf.offset == 0 && buf.len + |v| + |sep| + |w| + 2 <= BYTES_SIZE && sep != []
    modifies buf`len, buf.data
    ensures buf.Valid() && buf.offset == 0
    ensures ok == (v != [] && w != [])
    ensures ok ==> buf.View() == old(buf.View()) + (v + (sep + (w + CRLF)))
  {
    ok := Push(buf, v);
    if ok {
      ok := Push(buf, sep);
    }
    if ok {
      ok := Push(buf, w);
    }
    if ok {
      ok := Push(buf, CRLF);
      assert buf.View() == old(buf.View()) + (v + (sep + (w + CRLF)));
    }
  }

  method PushAuth(buf: Bytes, u: seq<byte>, d: seq<byte>, s: seq<byte>) returns (ok: bool)
    requires buf.Valid() && buf.offset == 0 && buf.len == 5 && Fits(Auth(u, d, s))
    modifies buf`len, buf.data
    ensures buf.Valid() && buf.offset == 0
    ensures ok == (u != [] && d != [] && s != [])
    ensures ok ==> buf.View() == old(buf.View()) + (u + (AS + (d + (USING + (s + CRLF)))))
  {
    hide Ascii;
    ok := Push(buf, u);
    if ok {
      ok := Push(buf, AS);
      assert buf.View() == old(buf.View()) + (u + AS);
      ok := PushTwo(buf, d, USING, s);
      Regroup(old(buf.View()), u, AS, d + (USING + (s + CRLF)));
    }
  }

  method Serialize(b: Body) returns (ok: bool, buf: Bytes)
    requires Fits(b)
    ensures fresh(buf) && fresh(buf.data) && buf.Valid() && buf.offset == 0
    ensures ok == Printable(b)
    ensures ok ==> buf.View() == Encode(b)
  {
    hide Ascii;
    buf := new Bytes();
    if b.Confirm? {
      return false, buf;
    }
    ok := Push(buf, KeywordOf(b));
    assert buf.View() == KeywordOf(b);
    match b {
      case Auth(u, d, s) => ok := PushAuth(buf, u, d, s);
      case Reply(result, _, c) => ok := PushReply(buf, result, c);
      case Join(c, d) => ok := PushTwo(buf, c, AS, d);
      case Message(d, c) => ok := PushTwo(buf, d, IS, c);
      case Err(d, c) => ok := PushTwo(buf, d, IS, c);
      case Bye => ok := Push(buf, CRLF);
    }
  }

  lemma Regroup(k: seq<byte>, u: seq<byte>, s: seq<byte>, t: seq<byte>)
    ensures k + (u + s) + t == k + (u + (s + t))
  {
  }

  method PushReply(buf: Bytes, result: bool, c: seq<byte>) returns (ok: bool)
    requires buf.Valid() && buf.offset == 0 && buf.len == 6 && |c| <= Limit(Content)
    modifies buf`len, buf.data
    ensures buf.Valid() && buf.offset == 0
    ensures ok == (c != [])
    ensures ok ==> buf.View() == old(buf.View()) + Tail(Reply(result, 0, c))
  {
    hide Ascii;
    if !result {
      ok := Push(buf, N);
    }
    ok := Push(buf, OK_IS);
    ok := Push(buf, c);
    if ok {
      ok := Push(buf, CRLF);
      assert buf.View() == old(buf.View()) + ((if result then [] else N) + (OK_IS + (c + CRLF)));
    }
  }

  /** A last field, the line end, and the final test that nothing is left. */
  method ReadLast(buf: Bytes, f: Field) returns (ok: bool, value: seq<byte>)
    requires buf.Valid()
    modifies buf`len, buf`offset
    ensures LastField(f, old(buf.View())) == if ok then Some(value) else None
  {
    hide FieldThen;
    ok, value := ReadThen(buf, f, CRLF);
    ok := ok && buf.len == 0;
  }

  method ReadTwo(buf: Bytes, f: Field, sep: seq<byte>, g: Field) returns (ok: bool, v: seq<byte>, w: seq<byte>)
    requires buf.Valid()
    modifies buf`len, buf`offset
    ensures TwoFields(f, sep, g, old(buf.View())) == if ok then Some((v, w)) else None
  {
    hide FieldThen, LastField;
    w := [];
    ok, v := ReadThen(buf, f, sep);
    if ok {
      ok, w := ReadLast(buf, g);
    }
  }

  method ReadReply(buf: Bytes) returns (r: Option<Body>)
    requires buf.Valid() && buf.Terminated() && buf.offset < BYTES_SIZE
    modifies buf`len, buf`offset
    ensures r == DecodeReply(old(buf.View()))
  {
    hide LastField;
    ghost var w := buf.View();
    var result := buf.At(0) != 'N' as int;
    buf.SkipFirstN(if result then 0 else 1);
    assert buf.View() == if result then w else w[1..];
    var ok := StartsWith(buf, OK_IS);
    r := None;
    if ok {
      buf.SkipFirstN(|OK_IS|);
      var last, content := ReadLast(buf, Content);
      if last {
        r := Some(Reply(result, 0, content));
      }
    }
  }

  method Deserialize(buf: Bytes, trie: Trie) returns (r: Option<Body>)
    requires buf.Valid() && buf.Terminated() && buf.offset == 0
    requires trie.Valid() && trie.toIndex == PrefixIndex && trie.Nodes == Built(Entries())
    modifies buf`len, buf`offset
    ensures r == Decode(old(buf.View()))
  {
    hide Built, Entries, TwoFields, DecodeReply, DecodeAuth, Keyword;
    ghost var w := buf.View();
    DispatchIsKeyword(w);
    var code := trie.MatchPrefix(buf.data[buf.offset..buf.offset + buf.len]);
    assert code == Keyword(w);
    r := None;
    if code == -1 {
      return;
    }
    buf.SkipFirstN(KeywordLength(code));
    if code == BYE {
      r := if buf.len == 0 then Some(Bye) else None;
    } else {
      r := ReadTail(buf, code);
    }
  }

  method ReadTail(buf: Bytes, code: int) returns (r: Option<Body>)
    requires buf.Valid() && buf.Terminated() && buf.offset < BYTES_SIZE
    modifies buf`len, buf`offset
    ensures r == DecodeTail(code, old(buf.View()))
  {
    hide TwoFields, DecodeReply, FieldThen;
    r := None;
    if code == JOIN {
      var ok, c, d := ReadTwo(buf, ChannelId, AS, DisplayName);
      r := if ok then Some(Join(c, d)) else None;
    } else if code == AUTH {
      var ok, u := ReadThen(buf, Username, AS);
      if ok {
        var both, d, s := ReadTwo(buf, DisplayName, USING, Secret);
        r := if both then Some(Auth(u, d, s)) else None;
      }
    } else if code == REPLY {
      r := ReadReply(buf);
    } else if code == MESSAGE || code == ERR {
      var ok, d, c := ReadTwo(buf, DisplayName, IS, Content);
      r := if !ok then None else if code == MESSAGE then Some(Message(d, c)) else Some(Err(d, c));
    }
  }
}
