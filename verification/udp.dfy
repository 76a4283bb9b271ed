/** The binary codec of src/udp.c: a three-byte header, then NUL-terminated fields. */
module Udp {
  import opened Window
  import opened Payloads

  /** A size_t of 64 bits: -1 returned by a scanner becomes SIZE_T - 1. */
  const SIZE_T: nat := 0x1_0000_0000_0000_0000

  /** What a receiver holds after decoding: a payload, or an error with the type and ID read so far. */
  datatype Decoded = Good(p: Payload) | Bad(code: byte, id: MessageId)

  function Header(p: Payload): (h: seq<byte>)
    ensures |h| == 3
  {
    [TypeCode(p.body), p.id / 256, p.id % 256]
  }

  /** A 16-bit ID from its two bytes, the high one first. */
  function Id(high: byte, low: byte): MessageId {
    high as int * 256 + low as int
  }

  /** A field and its terminator. */
  function Z(s: seq<byte>): seq<byte> {
    s + [NUL]
  }

  function Text(b: Body): seq<byte> {
    match b
    case Confirm => []
    case Bye => []
    case Reply(result, refId, content) => [if result then 1 else 0, refId / 256, refId % 256] + Z(content)
    case Auth(u, d, s) => Z(u) + (Z(d) + Z(s))
    case Join(c, d) => Z(c) + Z(d)
    case Message(d, c) => Z(d) + Z(c)
    case Err(d, c) => Z(d) + Z(c)
  }

  function Encode(p: Payload): seq<byte> {
    Header(p) + Text(p.body)
  }

  /** udp_serialize stops after the header when an error is already pending. */
  function Datagram(p: Payload, pending: bool): seq<byte> {
    if pending then Header(p) else Encode(p)
  }

  /** The byte at `i` of a datagram held in a zeroed buffer. */
  function ByteAt(d: seq<byte>, i: nat): byte {
    if i < |d| then d[i] else NUL
  }

  datatype Piece = Piece(value: seq<byte>, next: nat)

  /**
   One READ of udp_deserialize.  `read` is unsigned there, so a run longer than the field is not
   caught by `read <= 0`: index SIZE_MAX looks at the byte before the slice and skipping
   SIZE_MAX + 1 bytes skips none, which leaves the field empty.
   */
  function FieldAt(f: Field, d: seq<byte>, off: nat): (r: Option<Piece>)
    requires 1 <= off <= |d|
    ensures r.Some? ==> off <= r.value.next <= |d| && r.value.next <= off + Limit(f) + 1
  {
    var n := Scan(f, d[off..]);
    if n < 0 then
      if d[off - 1] == NUL then Some(Piece([], off)) else None
    else if n == 0 || ByteAt(d, off + n) != NUL then None
    else Some(Piece(d[off..off + n], if off + n < |d| then off + n + 1 else |d|))
  }

  /** Two consecutive fields that use up the datagram. */
  function TwoFields(f: Field, g: Field, d: seq<byte>, off: nat): (r: Option<(seq<byte>, seq<byte>)>)
    requires 1 <= off <= |d|
  {
    match FieldAt(f, d, off)
    case None => None
    case Some(a) =>
      match FieldAt(g, d, a.next)
      case None => None
      case Some(b) => if b.next == |d| then Some((a.value, b.value)) else None
  }

  function DecodeBody(d: seq<byte>): Option<Body>
    requires |d| >= 3
  {
    var code := d[0];
    if code == CONFIRM then if |d| == 3 then Some(Confirm) else None
    else if code == BYE then if |d| == 3 then Some(Bye) else None
    else if code == REPLY then
      if |d| < 6 || d[3] > 1 then None
      else
        match FieldAt(Content, d, 6)
        case None => None
        case Some(c) => if c.next == |d| then Some(Reply(d[3] == 1, Id(d[4], d[5]), c.value)) else None
    else if code == AUTH then
      match FieldAt(Username, d, 3)
      case None => None
      case Some(u) =>
        match TwoFields(DisplayName, Secret, d, u.next)
        case None => None
        case Some(r) => Some(Auth(u.value, r.0, r.1))
    else if code == JOIN then
      match TwoFields(ChannelId, DisplayName, d, 3)
      case None => None
      case Some(r) => Some(Join(r.0, r.1))
    else if code == MESSAGE then
      match TwoFields(DisplayName, Content, d, 3)
      case None => None
      case Some(r) => Some(Message(r.0, r.1))
    else if code == ERR then
      match TwoFields(DisplayName, Content, d, 3)
      case None => None
      case Some(r) => Some(Err(r.0, r.1))
    else None
  }

  function Decode(d: seq<byte>): Decoded {
    if |d| < 3 then Bad(0, 0)
    else
      var id := Id(d[1], d[2]);
      match DecodeBody(d)
      case None => Bad(d[0], id)
      case Some(b) => Good(Payload(id, b))
  }

  // ---------------------------------------------------------------- what one READ accepts

  /** A field ends where its scan ends, at a NUL. */
  lemma FieldAtScan(f: Field, d: seq<byte>, off: nat, n: nat)
    requires 1 <= off && off + n <= |d| && n > 0
    requires Scan(f, d[off..]) == n && ByteAt(d, off + n) == NUL
    ensures FieldAt(f, d, off) == Some(Piece(d[off..off + n], if off + n < |d| then off + n + 1 else |d|))
  {
  }

  lemma Pieces(d: seq<byte>, off: nat, v: seq<byte>, rest: seq<byte>)
    requires off <= |d| && d[off..] == Z(v) + rest
    ensures off + |v| + 1 <= |d| && d[off + |v|] == NUL
    ensures d[off..off + |v|] == v && d[off + |v| + 1..] == rest
  {
    var t := d[off..];
    assert |t| == |v| + 1 + |rest|;
    assert forall i :: 0 <= i < |v| ==> d[off + i] == t[i] == v[i];
    assert t[|v|] == NUL;
    assert forall i :: 0 <= i < |rest| ==> d[off + |v| + 1 + i] == t[|v| + 1 + i] == rest[i];
  }

  /** A legal field with its terminator is read back and the rest is left. */
  lemma FieldAtInner(f: Field, d: seq<byte>, off: nat, v: seq<byte>, rest: seq<byte>)
    requires 1 <= off <= |d| && FieldOk(f, v) && d[off..] == Z(v) + rest
    ensures off + |v| + 1 <= |d| && d[off + |v| + 1..] == rest
    ensures FieldAt(f, d, off) == Some(Piece(v, off + |v| + 1))
  {
    hide FieldAt, Scan, RunLen;
    Pieces(d, off, v, rest);
    assert Z(v) + rest == v + ([NUL] + rest);
    ScanField(f, v, [NUL] + rest);
    FieldAtScan(f, d, off, |v|);
  }

  /** The last field may lack its terminator: the buffer is zero behind the datagram. */
  lemma FieldAtLast(f: Field, d: seq<byte>, off: nat, v: seq<byte>)
    requires 1 <= off <= |d| && FieldOk(f, v) && (d[off..] == v || d[off..] == Z(v))
    ensures FieldAt(f, d, off) == Some(Piece(v, |d|))
  {
    hide FieldAt, RunLen, Scan;
    if d[off..] == v {
      assert d[off..] == v + [];
      ScanField(f, v, []);
      FieldAtScan(f, d, off, |v|);
      assert d[off..off + |v|] == v;
    } else {
      assert d[off..] == Z(v) + [];
      FieldAtInner(f, d, off, v, []);
    }
  }

  // ---------------------------------------------------------------- parse of print

  /** `e` is the datagram `d`, or `d` with the terminator of its last field cut off. */
  predicate Prints(e: seq<byte>, d: seq<byte>, b: Body) {
    e == d || (!b.Confirm? && !b.Bye? && e == d + [NUL])
  }

  lemma TwoFieldsPrinted(f: Field, g: Field, d: seq<byte>, off: nat, v: seq<byte>, w: seq<byte>, rest: seq<byte>)
    requires 1 <= off <= |d| && FieldOk(f, v) && FieldOk(g, w)
    requires d[off..] == Z(v) + rest && (rest == Z(w) || rest == w)
    ensures TwoFields(f, g, d, off) == Some((v, w))
  {
    hide FieldAt;
    FieldAtInner(f, d, off, v, rest);
    FieldAtLast(g, d, off + |v| + 1, w);
  }

  /** What follows the header of such a datagram. */
  lemma TextOf(p: Payload, d: seq<byte>)
    requires Prints(Encode(p), d, p.body)
    ensures |d| >= 3 && d[0] == TypeCode(p.body) && Id(d[1], d[2]) == p.id
    ensures Prints(Text(p.body), d[3..], p.body)
  {
    var e := Encode(p);
    assert e[..3] == Header(p) && e[3..] == Text(p.body);
    assert |d| >= 3;
    assert d[0] == e[0] && d[1] == e[1] && d[2] == e[2];
    if e != d {
      assert e[3..] == d[3..] + [NUL];
    }
  }

  /** `a + Z(w)` cut by its last byte is `a + w`. */
  lemma CutLast(a: seq<byte>, w: seq<byte>, t: seq<byte>)
    requires a + Z(w) == t || a + Z(w) == t + [NUL]
    ensures t == a + Z(w) || t == a + w
  {
    if a + Z(w) == t + [NUL] {
      assert t == (t + [NUL])[..|t|];
      assert (a + Z(w))[..|a + Z(w)| - 1] == a + w;
    }
  }

  lemma TwoFieldsOf(f: Field, g: Field, d: seq<byte>, off: nat, v: seq<byte>, w: seq<byte>)
    requires 1 <= off <= |d| && FieldOk(f, v) && FieldOk(g, w)
    requires Z(v) + Z(w) == d[off..] || Z(v) + Z(w) == d[off..] + [NUL]
    ensures TwoFields(f, g, d, off) == Some((v, w))
  {
    hide FieldAt, TwoFields;
    CutLast(Z(v), w, d[off..]);
    if d[off..] == Z(v) + Z(w) {
      TwoFieldsPrinted(f, g, d, off, v, w, Z(w));
    } else {
      TwoFieldsPrinted(f, g, d, off, v, w, w);
    }
  }

  lemma DecodeAuthPrinted(b: Body, d: seq<byte>)
    requires b.Auth? && WellFormed(b) && |d| >= 3 && d[0] == AUTH && Prints(Text(b), d[3..], b)
    ensures DecodeBody(d) == Some(b)
  {
    hide FieldAt, TwoFields;
    var u, n, s := b.username, b.displayName, b.secret;
    assert Text(b) == (Z(u) + Z(n)) + Z(s);
    CutLast(Z(u) + Z(n), s, d[3..]);
    var rest := if d[3..] == (Z(u) + Z(n)) + Z(s) then Z(n) + Z(s) else Z(n) + s;
    assert d[3..] == Z(u) + rest;
    FieldAtInner(Username, d, 3, u, rest);
    TwoFieldsPrinted(DisplayName, Secret, d, 3 + |u| + 1, n, s, if rest == Z(n) + Z(s) then Z(s) else s);
  }

  lemma DecodeReplyPrinted(b: Body, d: seq<byte>)
    requires b.Reply? && WellFormed(b) && |d| >= 3 && d[0] == REPLY && Prints(Text(b), d[3..], b)
    ensures DecodeBody(d) == Some(b)
  {
    hide FieldAt;
    var h := [if b.result then 1 else 0, b.refId / 256, b.refId % 256];
    CutLast(h, b.content, d[3..]);
    assert |d| > 6 && d[3..][..3] == h;
    assert d[3] == d[3..][0] && d[4] == d[3..][1] && d[5] == d[3..][2];
    assert d[6..] == d[3..][3..];
    FieldAtLast(Content, d, 6, b.content);
  }

  lemma DecodeTwoPrinted(b: Body, d: seq<byte>)
    requires (b.Join? || b.Message? || b.Err?) && WellFormed(b)
    requires |d| >= 3 && d[0] == TypeCode(b) && Prints(Text(b), d[3..], b)
    ensures DecodeBody(d) == Some(b)
  {
    hide FieldAt, TwoFields;
    if b.Join? {
      TwoFieldsOf(ChannelId, DisplayName, d, 3, b.channelId, b.displayName);
    } else {
      TwoFieldsOf(DisplayName, Content, d, 3, b.displayName, b.content);
    }
  }

  lemma DecodePrinted(p: Payload, d: seq<byte>)
    requires WellFormed(p.body) && Prints(Encode(p), d, p.body)
    ensures Decode(d) == Good(p)
  {
    hide FieldAt, TwoFields;
    TextOf(p, d);
    assert DecodeBody(d) == Some(p.body) by {
      match p.body
      case Confirm =>
      case Bye =>
      case Reply(_, _, _) => DecodeReplyPrinted(p.body, d);
      case Auth(_, _, _) => DecodeAuthPrinted(p.body, d);
      case _ => DecodeTwoPrinted(p.body, d);
    }
  }

  /** Decoding what was encoded gives back the very payload, IDs included. */
  lemma RoundTrip(p: Payload)
    requires WellFormed(p.body)
    ensures Decode(Encode(p)) == Good(p)
    ensures |Encode(p)| <= 1425
  {
    DecodePrinted(p, Encode(p));
  }

  // ---------------------------------------------------------------- print of parse

  /** The check a caller can make on the raw datagram: no leading name is longer than its field. */
  predicate HeadFits(d: seq<byte>) {
    |d| >= 3 && d[0] in {AUTH, MESSAGE, ERR} ==>
      var n := RunLen(DisplayName, d[3..]);
      && n <= Limit(if d[0] == AUTH then Username else DisplayName)
      && (d[0] == AUTH && 3 + n < |d| ==> RunLen(DisplayName, d[3 + n + 1..]) <= Limit(DisplayName))
  }

  /** FieldAt in terms of the scanner's result. */
  lemma FieldAtCount(f: Field, d: seq<byte>, off: nat, count: int)
    requires 1 <= off <= |d| && count == Scan(f, d[off..])
    ensures count == 0 || ByteAt(d, off + count) != NUL ==> FieldAt(f, d, off) == None
    ensures count < 0 && d[off - 1] == NUL ==> FieldAt(f, d, off) == Some(Piece([], off))
    ensures count > 0 && ByteAt(d, off + count) == NUL ==>
              off + count <= |d|
              && FieldAt(f, d, off)
                 == Some(Piece(d[off..off + count], if off + count < |d| then off + count + 1 else |d|))
  {
    hide RunLen;
  }

  /** A READ leaves the field empty only where the run was too long for it. */
  lemma FieldAtInverse(f: Field, d: seq<byte>, off: nat)
    requires 1 <= off <= |d| && FieldAt(f, d, off).Some?
    ensures var p := FieldAt(f, d, off).value;
            if p.value == [] then
              p.next == off < |d| && d[off] != NUL && RunLen(f, d[off..]) > Limit(f)
            else
              && FieldOk(f, p.value) && RunLen(f, d[off..]) == |p.value| && ByteAt(d, off + |p.value|) == NUL
              && (d[off..] == Z(p.value) + d[p.next..] || (d[off..] == p.value && p.next == |d|))
  {
    var n := Scan(f, d[off..]);
    FieldAtCount(f, d, off, n);
    hide FieldAt;
    if n < 0 {
      assert Allows(f, d[off..][0]);
    } else {
      FieldSlices(d, off, n);
    }
  }

  lemma FieldSlices(d: seq<byte>, off: nat, n: nat)
    requires off + n <= |d| && ByteAt(d, off + n) == NUL
    ensures d[off..][..n] == d[off..off + n]
    ensures if off + n < |d| then d[off..] == Z(d[off..off + n]) + d[off + n + 1..] else d[off..] == d[off..off + n]
  {
  }

  /** The field that ends the datagram is never left empty. */
  lemma LastInverse(f: Field, d: seq<byte>, off: nat)
    requires 1 <= off <= |d| && FieldAt(f, d, off).Some? && FieldAt(f, d, off).value.next == |d|
    ensures var v := FieldAt(f, d, off).value.value;
            FieldOk(f, v) && (Z(v) == d[off..] || Z(v) == d[off..] + [NUL])
  {
    hide RunLen, Scan;
    FieldAtInverse(f, d, off);
    var p := FieldAt(f, d, off).value;
    assert d[|d|..] == [] && Z(p.value) + [] == Z(p.value);
  }

  lemma TwoFieldsInverse(f: Field, g: Field, d: seq<byte>, off: nat)
    requires 1 <= off <= |d| && TwoFields(f, g, d, off).Some?
    ensures var r := TwoFields(f, g, d, off).value;
            var t := Z(r.0) + Z(r.1);
            && FieldOk(g, r.1)
            && (FieldOk(f, r.0) || r.0 == [])
            && (r.0 != [] <==> t == d[off..] || t == d[off..] + [NUL])
            && (r.0 != [] <==> RunLen(f, d[off..]) <= Limit(f))
  {
    hide RunLen, FieldAt;
    FieldAtInverse(f, d, off);
    var a := FieldAt(f, d, off).value;
    LastInverse(g, d, a.next);
    var r := TwoFields(f, g, d, off).value;
    var t := Z(r.0) + Z(r.1);
    if r.0 == [] {
      assert t[0] == NUL && d[off..][0] == d[off];
    } else if d[off..] == Z(a.value) + d[a.next..] {
      assert Z(a.value) + (d[a.next..] + [NUL]) == d[off..] + [NUL];
    }
  }

  /** An identifier that ends in NUL is also a full run of name bytes; a longer one stays longer. */
  lemma IdRunIsNameRun(s: seq<byte>)
    ensures RunLen(Username, s) <= RunLen(DisplayName, s)
    ensures ByteAt(s, RunLen(Username, s)) == NUL ==> RunLen(Username, s) == RunLen(DisplayName, s)
  {
    RunLenAt(DisplayName, s, RunLen(Username, s));
  }

  /** `b` is well-formed exactly when `d` fits, and exactly when it prints back. */
  predicate Inverts(d: seq<byte>, b: Body)
    requires |d| >= 3
  {
    && TypeCode(b) == d[0]
    && (WellFormed(b) <==> HeadFits(d))
    && (WellFormed(b) <==> Prints(Text(b), d[3..], b))
  }

  lemma AuthParts(d: seq<byte>) returns (u: Piece, r: (seq<byte>, seq<byte>))
    requires |d| >= 3 && d[0] == AUTH && DecodeBody(d).Some?
    ensures FieldAt(Username, d, 3) == Some(u)
    ensures TwoFields(DisplayName, Secret, d, u.next) == Some(r)
    ensures DecodeBody(d) == Some(Auth(u.value, r.0, r.1))
  {
    hide TwoFields, FieldAt;
    u := FieldAt(Username, d, 3).value;
    r := TwoFields(DisplayName, Secret, d, u.next).value;
  }

  lemma AuthUnnamed(d: seq<byte>, u: Piece, r: (seq<byte>, seq<byte>))
    requires |d| >= 3 && d[0] == AUTH && FieldAt(Username, d, 3) == Some(u) && u.value == []
    ensures Inverts(d, Auth(u.value, r.0, r.1))
  {
    hide RunLen, FieldAt;
    FieldAtInverse(Username, d, 3);
    IdRunIsNameRun(d[3..]);
    assert Text(Auth(u.value, r.0, r.1))[0] == NUL && d[3..][0] == d[3];
  }

  lemma AuthNamed(d: seq<byte>, u: Piece, r: (seq<byte>, seq<byte>))
    requires |d| >= 3 && d[0] == AUTH && FieldAt(Username, d, 3) == Some(u) && u.value != []
    requires TwoFields(DisplayName, Secret, d, u.next) == Some(r)
    ensures Inverts(d, Auth(u.value, r.0, r.1))
  {
    hide FieldAt, TwoFields, RunLen;
    var rest := Z(r.0) + Z(r.1);
    FieldAtInverse(Username, d, 3);
    TwoFieldsInverse(DisplayName, Secret, d, u.next);
    assert |rest| >= 2 && u.next < |d| && d[3..] == Z(u.value) + d[u.next..] by {
      NamedSplits(d, u);
    }
    AuthTail(d, u, rest);
    assert ByteAt(d[3..], |u.value|) == ByteAt(d, 3 + |u.value|);
    IdRunIsNameRun(d[3..]);
    NameRuns(d, u);
  }

  /** More fields follow the username, so its terminator is in the datagram. */
  lemma NamedSplits(d: seq<byte>, u: Piece)
    requires |d| >= 3 && FieldAt(Username, d, 3) == Some(u) && u.value != []
    requires TwoFields(DisplayName, Secret, d, u.next).Some?
    ensures u.next == 3 + |u.value| + 1 < |d| && d[3..] == Z(u.value) + d[u.next..]
  {
    FieldAtInverse(Username, d, 3);
    TwoFieldsInverse(DisplayName, Secret, d, u.next);
  }

  lemma NameRuns(d: seq<byte>, u: Piece)
    requires |d| >= 3 && d[0] == AUTH && 0 < |u.value| <= 20 && u.next == 3 + |u.value| + 1 <= |d|
    requires RunLen(DisplayName, d[3..]) == |u.value|
    ensures HeadFits(d) <==> RunLen(DisplayName, d[u.next..]) <= 20
  {
    hide RunLen;
  }

  lemma AuthInverse(d: seq<byte>)
    requires |d| >= 3 && d[0] == AUTH && DecodeBody(d).Some?
    ensures Inverts(d, DecodeBody(d).value)
  {
    var u, r := AuthParts(d);
    hide DecodeBody, TwoFields, FieldAt, RunLen;
    if u.value == [] {
      AuthUnnamed(d, u, r);
    } else {
      AuthNamed(d, u, r);
    }
  }

  lemma AuthTail(d: seq<byte>, u: Piece, rest: seq<byte>)
    requires |d| >= 3 && |u.value| + 4 <= |d| && u.next == 3 + |u.value| + 1
    requires d[3..] == Z(u.value) + d[u.next..]
    ensures rest == d[u.next..] || rest == d[u.next..] + [NUL]
            <==> Z(u.value) + rest == d[3..] || Z(u.value) + rest == d[3..] + [NUL]
  {
    var z := Z(u.value);
    assert d[3..] + [NUL] == z + (d[u.next..] + [NUL]);
    assert (z + rest)[|z|..] == rest;
    assert (z + d[u.next..])[|z|..] == d[u.next..];
    assert (z + (d[u.next..] + [NUL]))[|z|..] == d[u.next..] + [NUL];
  }

  lemma ReplyParts(d: seq<byte>) returns (c: seq<byte>)
    requires |d| >= 3 && d[0] == REPLY && DecodeBody(d).Some?
    ensures |d| >= 6 && d[3] <= 1 && FieldAt(Content, d, 6) == Some(Piece(c, |d|))
    ensures DecodeBody(d) == Some(Reply(d[3] == 1, Id(d[4], d[5]), c))
  {
    hide FieldAt, TwoFields;
    c := FieldAt(Content, d, 6).value.value;
  }

  lemma ReplyInverse(d: seq<byte>)
    requires |d| >= 3 && d[0] == REPLY && DecodeBody(d).Some?
    ensures Inverts(d, DecodeBody(d).value)
  {
    hide RunLen, FieldAt, DecodeBody, Id, Z, Text, FieldOk;
    var c := ReplyParts(d);
    LastInverse(Content, d, 6);
    ReplyHead(d, c);
    ReplyText(d, c);
  }

  lemma ReplyText(d: seq<byte>, c: seq<byte>)
    requires |d| >= 6 && d[3] <= 1
    ensures Text(Reply(d[3] == 1, Id(d[4], d[5]), c)) == [d[3], d[4], d[5]] + Z(c)
  {
  }

  lemma ReplyHead(d: seq<byte>, c: seq<byte>)
    requires |d| >= 6 && (Z(c) == d[6..] || Z(c) == d[6..] + [NUL])
    ensures [d[3], d[4], d[5]] + Z(c) == d[3..] || [d[3], d[4], d[5]] + Z(c) == d[3..] + [NUL]
  {
    assert d[3..] == [d[3], d[4], d[5]] + d[6..];
  }

  lemma JoinInverse(d: seq<byte>)
    requires |d| >= 3 && d[0] == JOIN && DecodeBody(d).Some?
    ensures Inverts(d, DecodeBody(d).value)
  {
    hide RunLen, FieldAt, TwoFields;
    TwoFieldsInverse(ChannelId, DisplayName, d, 3);
    JoinNotEmpty(d);
  }

  lemma BodyInverse(d: seq<byte>)
    requires |d| >= 3 && DecodeBody(d).Some?
    ensures Inverts(d, DecodeBody(d).value)
  {
    hide RunLen, FieldAt, TwoFields;
    if d[0] == AUTH {
      AuthInverse(d);
    } else if d[0] == JOIN {
      JoinInverse(d);
    } else if d[0] == MESSAGE || d[0] == ERR {
      TwoFieldsInverse(DisplayName, Content, d, 3);
    } else if d[0] == REPLY {
      ReplyInverse(d);
    }
  }

  /** In a JOIN an overlong channel makes the display name overlong too, and that one is the last field. */
  lemma JoinNotEmpty(d: seq<byte>)
    requires |d| >= 3 && TwoFields(ChannelId, DisplayName, d, 3).Some?
    ensures TwoFields(ChannelId, DisplayName, d, 3).value.0 != []
  {
    hide RunLen, FieldAt;
    FieldAtInverse(ChannelId, d, 3);
    RunLenAt(DisplayName, d[3..], RunLen(ChannelId, d[3..]));
    LastInverse(DisplayName, d, FieldAt(ChannelId, d, 3).value.next);
    if FieldAt(ChannelId, d, 3).value.value == [] {
      FieldAtInverse(DisplayName, d, 3);
    }
  }

  lemma HeaderPrints(p: Payload, d: seq<byte>)
    requires |d| >= 3 && d[..3] == Header(p)
    ensures Prints(Encode(p), d, p.body) <==> Prints(Text(p.body), d[3..], p.body)
  {
    var h, t := Header(p), Text(p.body);
    assert d == h + d[3..];
    assert d + [NUL] == h + (d[3..] + [NUL]);
    assert (h + t)[3..] == t && (h + d[3..])[3..] == d[3..];
    assert (h + (d[3..] + [NUL]))[3..] == d[3..] + [NUL];
  }

  lemma DecodeParts(d: seq<byte>, p: Payload)
    requires Decode(d) == Good(p)
    ensures |d| >= 3 && DecodeBody(d) == Some(p.body)
    ensures p.id / 256 == d[1] && p.id % 256 == d[2]
  {
    hide DecodeBody;
  }

  /**
   Printing an accepted datagram gives it back, up to a missing final terminator, exactly when
   no leading name was longer than its field; and exactly then the payload is well-formed.
   */
  lemma PrintOfParse(d: seq<byte>, p: Payload)
    requires Decode(d) == Good(p)
    ensures Prints(Encode(p), d, p.body) <==> HeadFits(d)
    ensures WellFormed(p.body) <==> HeadFits(d)
  {
    hide Decode, DecodeBody, Encode, Text, HeadFits, RunLen, WellFormed;
    DecodeParts(d, p);
    BodyInverse(d);
    assert d[..3] == Header(p);
    HeaderPrints(p, d);
  }

  /** The datagrams that decode to a well-formed payload are its encoding, with or without the last NUL. */
  lemma AcceptsExactly(d: seq<byte>, p: Payload)
    requires WellFormed(p.body)
    ensures Decode(d) == Good(p) <==> Prints(Encode(p), d, p.body)
  {
    hide Decode, Encode, HeadFits;
    if Decode(d) == Good(p) {
      PrintOfParse(d, p);
    }
    if Prints(Encode(p), d, p.body) {
      DecodePrinted(p, d);
    }
  }

  /** The overlong case is real: a MSG with ID 0 and 21 letters decodes to an empty display name. */
  lemma OverlongNameAccepted()
    ensures var a := seq(21, _ => 'a' as int);
            var d := [MESSAGE, 0, 0] + Z(a);
            !HeadFits(d) && Decode(d) == Good(Payload(0, Message([], a)))
  {
    var a := seq(21, _ => 'a' as int);
    var d: seq<byte> := [MESSAGE, 0, 0] + Z(a);
    assert d[3..] == Z(a) + [];
    assert Z(a) == a + [NUL];
    RunLenAt(DisplayName, d[3..], 21);
    FieldAtLast(Content, d, 3, a);
  }

  /** A decoded payload has the type and the ID its datagram begins with. */
  lemma DecodedHeader(d: seq<byte>, p: Payload)
    requires Decode(d) == Good(p)
    ensures |d| >= 3 && d[0] == TypeCode(p.body) && p.id == Id(d[1], d[2])
  {
    hide Decode, DecodeBody, Encode, Text, HeadFits, RunLen, WellFormed;
    DecodeParts(d, p);
    BodyInverse(d);
  }

  /** A datagram cut to its header decodes only for the types without text. */
  lemma HeaderOnly(p: Payload)
    ensures Decode(Header(p)) == if p.body.Confirm? || p.body.Bye? then Good(p) else Bad(TypeCode(p.body), p.id)
  {
    assert Header(p)[3..] == [];
    assert Scan(Username, []) == 0 && Scan(ChannelId, []) == 0 && Scan(DisplayName, []) == 0;
  }

  // ---------------------------------------------------------------- the code over the byte window

  method PushBytes(buf: Bytes, text: seq<byte>)
    requires buf.Valid() && buf.offset == 0 && buf.len + |text| < BYTES_SIZE
    modifies buf`len, buf.data
    ensures buf.Valid() && buf.offset == 0
    ensures buf.View() == old(buf.View()) + Z(text)
  {
    buf.PushArr(text);
    buf.PushArr([NUL]);
  }

  lemma Assoc(h: seq<byte>, a: seq<byte>, b: seq<byte>)
    ensures (h + a) + b == h + (a + b)
  {
  }

  method PushTwo(buf: Bytes, v: seq<byte>, w: seq<byte>)
    requires buf.Valid() && buf.offset == 0 && buf.len + |v| + |w| + 1 < BYTES_SIZE
    modifies buf`len, buf.data
    ensures buf.Valid() && buf.offset == 0
    ensures buf.View() == old(buf.View()) + (Z(v) + Z(w))
  {
    PushBytes(buf, v);
    PushBytes(buf, w);
    Assoc(old(buf.View()), Z(v), Z(w));
  }

  method PushReply(buf: Bytes, b: Body)
    requires b.Reply? && Fits(b) && buf.Valid() && buf.offset == 0 && buf.len == 3
    modifies buf`len, buf.data
    ensures buf.Valid() && buf.View() == old(buf.View()) + Text(b)
  {
    var r := [if b.result then 1 else 0];
    buf.PushArr(r);
    buf.PushArr([b.refId / 256]);
    buf.PushArr([b.refId % 256]);
    ghost var h := [r[0], b.refId / 256, b.refId % 256];
    assert buf.View() == old(buf.View()) + h;
    PushBytes(buf, b.content);
    Assoc(old(buf.View()), h, Z(b.content));
  }

  method Serialize(p: Payload, pending: bool) returns (buf: Bytes)
    requires Fits(p.body)
    ensures fresh(buf) && fresh(buf.data) && buf.Valid() && buf.offset == 0
    ensures buf.View() == Datagram(p, pending)
  {
    buf := new Bytes();
    buf.PushArr([TypeCode(p.body), p.id / 256, p.id % 256]);
    assert buf.View() == Header(p);
    if pending {
      return;
    }
    match p.body {
      case Bye =>
      case Confirm =>
      case Reply(result, refId, content) => PushReply(buf, p.body);
      case Auth(u, d, s) =>
        PushBytes(buf, u);
        PushTwo(buf, d, s);
        Assoc(Header(p), Z(u), Z(d) + Z(s));
      case Join(c, d) => PushTwo(buf, c, d);
      case Message(d, c) => PushTwo(buf, d, c);
      case Err(d, c) => PushTwo(buf, d, c);
    }
  }

  /** A number stored in a size_t, which wraps around. */
  function SizeT(n: int): nat
    requires -1 <= n < 2 * SIZE_T
    ensures n <= SIZE_T ==> SizeT(n) < SIZE_T
  {
    if n < 0 then n + SIZE_T else if n >= SIZE_T then n - SIZE_T else n
  }

  /** The READ macro: `read` is a size_t, and so are the index and the skip computed from it. */
  method ReadField(buf: Bytes, f: Field) returns (ok: bool, value: seq<byte>)
    requires buf.Valid() && buf.Terminated() && 1 <= buf.offset && buf.offset + Limit(f) < BYTES_SIZE
    modifies buf`len, buf`offset
    ensures buf.Valid() && buf.Terminated() && buf.offset + buf.len == old(buf.offset + buf.len)
    ensures buf.Whole() == old(buf.Whole())
    ensures ok == FieldAt(f, buf.Whole(), old(buf.offset)).Some?
    ensures ok ==> FieldAt(f, buf.Whole(), old(buf.offset)) == Some(Piece(value, buf.offset))
  {
    hide Scan, RunLen, FieldAt, RunOf, FieldOk, Limit, ByteAt, SizeT;
    ghost var d, off := buf.Whole(), buf.offset;
    var count;
    value, count := Read(f, buf);
    assert d[off..] == buf.View();
    ReadParts(f, d, off, count);
    WrapsBack(off, count);
    var read := SizeT(count);
    if read <= 0 {
      return false, [];
    }
    var at := SizeT(buf.offset + read);
    WholeAt(buf, at);
    if buf.data[at] != NUL {
      return false, [];
    }
    buf.SkipFirstN(SizeT(read + 1));
    assert buf.Whole() == d;
    ok := true;
  }

  /** The array read at or before the end of the slice, where a full array excludes the end itself. */
  lemma WholeAt(buf: Bytes, i: nat)
    requires buf.Valid() && buf.Terminated() && i <= buf.offset + buf.len && i < BYTES_SIZE
    ensures buf.data[i] == ByteAt(buf.Whole(), i)
  {
  }

  /** Unsigned arithmetic undoes the wrap of -1. */
  lemma WrapsBack(off: nat, count: int)
    requires -1 <= count < BYTES_SIZE && 1 <= off < BYTES_SIZE
    ensures var read := SizeT(count);
            (read == 0 <==> count == 0) && SizeT(off + read) == off + count && SizeT(read + 1) == count + 1
  {
  }

  /** FieldAtCount in terms of what the scanner hands over. */
  lemma ReadParts(f: Field, d: seq<byte>, off: nat, count: int)
    requires 1 <= off <= |d| && count == Scan(f, d[off..])
    ensures -1 <= count <= Limit(f) && off + count <= |d|
    ensures count == 0 || ByteAt(d, off + count) != NUL ==> FieldAt(f, d, off) == None
    ensures count < 0 && d[off - 1] == NUL ==> FieldAt(f, d, off) == Some(Piece([], off))
    ensures count > 0 && ByteAt(d, off + count) == NUL ==>
              FieldAt(f, d, off) == Some(Piece(d[off..][..count], if off + count < |d| then off + count + 1 else |d|))
  {
    hide FieldAt, RunLen;
    FieldAtCount(f, d, off, count);
    assert count > 0 ==> count <= |d[off..]| && d[off..][..count] == d[off..off + count];
  }

  method Deserialize(buf: Bytes) returns (r: Decoded)
    requires buf.Valid() && buf.Terminated() && buf.offset == 0
    modifies buf`len, buf`offset
    ensures r == Decode(old(buf.View()))
  {
    hide DecodeBody;
    ghost var d := buf.View();
    assert d == buf.Whole();
    if buf.len < 3 {
      return Bad(0, 0);
    }
    var code := buf.At(0);
    buf.SkipFirstN(1);
    var id := Id(buf.At(0), buf.At(1));
    buf.SkipFirstN(2);
    var body := DeserializeBody(buf, code);
    match body
    case None => r := Bad(code, id);
    case Some(b) => r := Good(Payload(id, b));
  }

  method DeserializeBody(buf: Bytes, code: byte) returns (r: Option<Body>)
    requires buf.Valid() && buf.Terminated() && buf.offset == 3 && code == buf.Whole()[0]
    modifies buf`len, buf`offset
    ensures r == DecodeBody(old(buf.Whole()))
  {
    hide FieldAt, TwoFields;
    r := None;
    if code == REPLY {
      r := DeserializeReply(buf);
    } else if code == AUTH {
      var ok, u := ReadField(buf, Username);
      if ok {
        var both, d, s := ReadTwo(buf, DisplayName, Secret);
        r := if both then Some(Auth(u, d, s)) else None;
      }
    } else if code == JOIN {
      var both, c, d := ReadTwo(buf, ChannelId, DisplayName);
      r := if both then Some(Join(c, d)) else None;
    } else if code == MESSAGE || code == ERR {
      var both, d, c := ReadTwo(buf, DisplayName, Content);
      r := if !both then None else if code == MESSAGE then Some(Message(d, c)) else Some(Err(d, c));
    } else if (code == CONFIRM || code == BYE) && buf.len == 0 {
      r := Some(if code == CONFIRM then Confirm else Bye);
    }
  }

  method ReadTwo(buf: Bytes, f: Field, g: Field) returns (ok: bool, v: seq<byte>, w: seq<byte>)
    requires buf.Valid() && buf.Terminated() && 1 <= buf.offset && buf.offset + Limit(f) + 1 + Limit(g) < BYTES_SIZE
    modifies buf`len, buf`offset
    ensures TwoFields(f, g, old(buf.Whole()), old(buf.offset)) == if ok then Some((v, w)) else None
  {
    hide FieldAt;
    w := [];
    ok, v := ReadField(buf, f);
    if ok {
      ok, w := ReadField(buf, g);
      ok := ok && buf.len == 0;
    }
  }

  method DeserializeReply(buf: Bytes) returns (r: Option<Body>)
    requires buf.Valid() && buf.Terminated() && buf.offset == 3 && buf.Whole()[0] == REPLY
    modifies buf`len, buf`offset
    ensures r == DecodeBody(old(buf.Whole()))
  {
    hide FieldAt;
    ghost var d := buf.Whole();
    r := None;
    if buf.len == 0 || buf.At(0) > 1 {
      return;
    }
    var result := buf.At(0) == 1;
    buf.SkipFirstN(1);
    var refId: MessageId := 0;
    if buf.len < 2 {
      // read_message_id returns SIZE_MAX, which is not caught: the skip takes what is left
      buf.SkipFirstN(SIZE_T - 1);
      assert buf.Whole() == d && d[|d|..] == [];
      FieldAtCount(Content, d, |d|, 0);
    } else {
      refId := Id(buf.At(0), buf.At(1));
      buf.SkipFirstN(2);
    }
    var ok, content := ReadField(buf, Content);
    if ok && buf.len == 0 {
      r := Some(Reply(result, refId, content));
    }
  }
}
