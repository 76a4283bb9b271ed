/** Payloads and the bounded field scanner of src/payload.c. */
module Payloads {
  import opened Window

  type MessageId = i: int | 0 <= i < 0x1_0000

  datatype Option<T> = None | Some(value: T)

  /** The kinds of text a payload or a command is made of. */
  datatype Field = Username | ChannelId | Secret | DisplayName | Content

  function Limit(f: Field): nat {
    match f
    case Username => 20
    case ChannelId => 20
    case Secret => 128
    case DisplayName => 20
    case Content => 1400
  }

  predicate IsIdByte(b: byte) {
    b == '-' as int || 'a' as int <= b <= 'z' as int || 'A' as int <= b <= 'Z' as int || '0' as int <= b <= '9' as int
  }

  predicate Allows(f: Field, b: byte) {
    match f
    case DisplayName => 0x21 <= b <= 0x7e
    case Content => 0x20 <= b <= 0x7e
    case _ => IsIdByte(b)
  }

  predicate AllAllowed(f: Field, s: seq<byte>) {
    forall i :: 0 <= i < |s| ==> Allows(f, s[i])
  }

  /** What every scanner accepts: non-empty, within the limit, every byte of the right class. */
  predicate FieldOk(f: Field, s: seq<byte>) {
    0 < |s| <= Limit(f) && AllAllowed(f, s)
  }

  datatype Body =
    | Confirm
    | Reply(result: bool, refId: MessageId, content: seq<byte>)
    | Auth(username: seq<byte>, displayName: seq<byte>, secret: seq<byte>)
    | Join(channelId: seq<byte>, displayName: seq<byte>)
    | Message(displayName: seq<byte>, content: seq<byte>)
    | Err(displayName: seq<byte>, content: seq<byte>)
    | Bye

  datatype Payload = Payload(id: MessageId, body: Body)

  const CONFIRM: byte := 0x00
  const REPLY: byte := 0x01
  const AUTH: byte := 0x02
  const JOIN: byte := 0x03
  const MESSAGE: byte := 0x04
  const ERR: byte := 0xFE
  const BYE: byte := 0xFF

  function TypeCode(b: Body): byte {
    match b
    case Confirm => CONFIRM
    case Reply(_, _, _) => REPLY
    case Auth(_, _, _) => AUTH
    case Join(_, _) => JOIN
    case Message(_, _) => MESSAGE
    case Err(_, _) => ERR
    case Bye => BYE
  }

  predicate WellFormed(b: Body) {
    match b
    case Confirm => true
    case Bye => true
    case Reply(_, _, c) => FieldOk(Content, c)
    case Auth(u, d, s) => FieldOk(Username, u) && FieldOk(DisplayName, d) && FieldOk(Secret, s)
    case Join(c, d) => FieldOk(ChannelId, c) && FieldOk(DisplayName, d)
    case Message(d, c) => FieldOk(DisplayName, d) && FieldOk(Content, c)
    case Err(d, c) => FieldOk(DisplayName, d) && FieldOk(Content, c)
  }

  /** Every text lies in the array of its field. */
  predicate Fits(b: Body) {
    match b
    case Confirm => true
    case Bye => true
    case Reply(_, _, c) => |c| <= Limit(Content)
    case Auth(u, d, s) => |u| <= Limit(Username) && |d| <= Limit(DisplayName) && |s| <= Limit(Secret)
    case Join(c, d) => |c| <= Limit(ChannelId) && |d| <= Limit(DisplayName)
    case Message(d, c) => |d| <= Limit(DisplayName) && |c| <= Limit(Content)
    case Err(d, c) => |d| <= Limit(DisplayName) && |c| <= Limit(Content)
  }

  /** The first `n` bytes of `s` are of the class of `f`. */
  predicate RunOf(f: Field, s: seq<byte>, n: nat) {
    n <= |s| && forall i :: 0 <= i < n ==> Allows(f, s[i])
  }

  /** The length of the longest prefix of allowed bytes. */
  function RunLen(f: Field, s: seq<byte>): (n: nat)
    ensures RunOf(f, s, n)
    ensures n < |s| ==> !Allows(f, s[n])
  {
    if s == [] || !Allows(f, s[0]) then 0
    else
      var n := RunLen(f, s[1..]);
      assert forall i :: 0 < i < 1 + n ==> s[i] == s[1..][i - 1];
      1 + n
  }

  /** What a read_* function returns: the run length, or -1 when the run is longer than the field. */
  function Scan(f: Field, s: seq<byte>): (n: int)
    ensures -1 <= n <= Limit(f)
    ensures n > 0 ==> n <= |s| && FieldOk(f, s[..n]) && (n < |s| ==> !Allows(f, s[n]))
  {
    var n := RunLen(f, s);
    if n > Limit(f) then -1 else n
  }

  /** A run is determined by its end. */
  lemma RunLenAt(f: Field, s: seq<byte>, n: nat)
    requires RunOf(f, s, n)
    ensures RunLen(f, s) >= n
    ensures (n == |s| || !Allows(f, s[n])) ==> RunLen(f, s) == n
  {
    var k := RunLen(f, s);
    assert k < |s| ==> !Allows(f, s[k]);
    assert n < |s| && n < k ==> Allows(f, s[n]);
  }

  /** A legal field followed by a byte it does not allow is read back whole, and nothing more. */
  lemma ScanField(f: Field, v: seq<byte>, rest: seq<byte>)
    requires FieldOk(f, v) && (rest != [] ==> !Allows(f, rest[0]))
    ensures Scan(f, v + rest) == |v|
    ensures (v + rest)[..|v|] == v && (v + rest)[|v|..] == rest
  {
    assert (v + rest)[..|v|] == v;
    RunLenAt(f, v + rest, |v|);
  }

  method Read(f: Field, src: Bytes) returns (dest: seq<byte>, count: int)
    requires src.Valid()
    ensures count == Scan(f, src.View())
    ensures dest == if count > 0 then src.View()[..count] else []
  {
    count := Count(f, src);
    hide Scan;
    dest := [];
    if count > 0 {
      dest := src.data[src.offset..src.offset + count];
      assert dest == src.View()[..count];
    }
  }

  /** The loop of `read`. */
  method Count(f: Field, src: Bytes) returns (count: int)
    requires src.Valid()
    ensures count == Scan(f, src.View())
  {
    ghost var s := src.View();
    count := 0;
    var i := 0;
    while i < src.len
      invariant 0 <= i <= src.len && count == i <= Limit(f)
      invariant RunOf(f, s, i)
    {
      var b := src.data[src.offset + i];
      assert b == s[i];
      if !Allows(f, b) {
        break;
      }
      if count >= Limit(f) {
        RunLenAt(f, s, i + 1);
        return -1;
      }
      count := count + 1;
      i := i + 1;
    }
    RunLenAt(f, s, i);
  }

  // ---------------------------------------------------------------- fields with separators

  /** A READ and then a SKIP: a field, the separator, and what is left. */
  function FieldThen(f: Field, w: seq<byte>, sep: seq<byte>): (r: Option<(seq<byte>, seq<byte>)>) {
    var n := Scan(f, w);
    if n <= 0 || !(sep <= w[n..]) then None else Some((w[..n], w[n..][|sep|..]))
  }

  /** `sep` cannot be taken for a part of the field before it. */
  predicate Delimits(sep: seq<byte>, f: Field) {
    sep != [] && !Allows(f, sep[0])
  }

  lemma FieldThenExact(f: Field, w: seq<byte>, sep: seq<byte>, v: seq<byte>, rest: seq<byte>)
    requires Delimits(sep, f)
    ensures FieldThen(f, w, sep) == Some((v, rest)) <==> FieldOk(f, v) && w == v + (sep + rest)
  {
    if FieldOk(f, v) && w == v + (sep + rest) {
      ScanField(f, v, sep + rest);
      assert w[|v|..] == sep + rest;
    }
    if FieldThen(f, w, sep) == Some((v, rest)) {
      var n := Scan(f, w);
      assert w == w[..n] + w[n..];
      assert w[n..] == sep + w[n..][|sep|..];
    }
  }

  /** starts_with. */
  method StartsWith(buf: Bytes, str: seq<byte>) returns (r: bool)
    requires buf.Valid()
    ensures r == (str <= buf.View())
  {
    if buf.len < |str| {
      return false;
    }
    r := buf.data[buf.offset..buf.offset + |str|] == str;
    assert buf.View()[..|str|] == buf.data[buf.offset..buf.offset + |str|];
  }

  /** The READ macro followed by a SKIP of a fixed text. */
  method ReadThen(buf: Bytes, f: Field, sep: seq<byte>) returns (ok: bool, value: seq<byte>)
    requires buf.Valid()
    modifies buf`len, buf`offset
    ensures buf.Valid()
    ensures var r := FieldThen(f, old(buf.View()), sep);
            ok == r.Some? && (ok ==> r.value == (value, buf.View()))
  {
    hide Scan;
    var count;
    value, count := Read(f, buf);
    if count <= 0 {
      return false, [];
    }
    buf.SkipFirstN(count);
    ok := StartsWith(buf, sep);
    if ok {
      buf.SkipFirstN(|sep|);
    }
  }
}
