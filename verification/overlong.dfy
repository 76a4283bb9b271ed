/**
 Every datagram that udp_deserialize accepts although a field in it is overlong: the unsigned result of
 the scan lets such a field be read as an empty one.
 */
module Overlong {
  import opened Window
  import opened Payloads
  import opened Udp
  import opened Wire

  /** The text, with or without the terminator. */
  predicate Ends(t: seq<byte>, x: seq<byte>) {
    t == x || t == x + [0]
  }

  /** More than 20 bytes that a display name may hold. */
  predicate LongName(s: seq<byte>) {
    |s| > 20 && forall i :: 0 <= i <= 20 ==> 33 <= s[i] <= 126
  }

  /**
   A MSG or ERR without its name, whose low ID byte stands for the missing terminator; or an AUTH
   without its display name, and perhaps without its username in the same way.
   */
  predicate Shape(d: seq<byte>, b: Body) {
    |d| > 3
    && match b
       case Message(name, text) =>
         d[0] == 4 && d[2] == 0 && name == [] && Legal(Content, text) && LongName(text) && Ends(d[3..], text)
       case Err(name, text) =>
         d[0] == 254 && d[2] == 0 && name == [] && Legal(Content, text) && LongName(text) && Ends(d[3..], text)
       case Auth(user, name, secret) =>
         && d[0] == 2 && name == [] && Legal(Secret, secret) && |secret| > 20
         && ((user == [] && d[2] == 0 && Ends(d[3..], secret))
             || (Legal(Username, user) && Ends(d[3..], user + [0] + secret)))
       case _ => false
  }

  lemma LongField(f: Field, d: seq<byte>, off: nat)
    requires 1 <= off <= |d| && RunLen(f, d[off..]) > Limit(f)
    ensures FieldAt(f, d, off) == if d[off - 1] == NUL then Some(Piece([], off)) else None
  {
    hide RunLen;
  }

  lemma EmptyField(f: Field, d: seq<byte>, off: nat)
    requires 1 <= off <= |d| && FieldAt(f, d, off).Some? && FieldAt(f, d, off).value.value == []
    ensures RunLen(f, d[off..]) > Limit(f) && d[off - 1] == NUL && FieldAt(f, d, off).value.next == off < |d|
  {
    hide RunLen, FieldAt;
    FieldAtInverse(f, d, off);
    LongField(f, d, off);
  }

  /** An overlong name and then a last field, both read from the same place. */
  lemma TwoLong(g: Field, d: seq<byte>, off: nat, w: seq<byte>)
    requires 1 <= off <= |d|
    ensures TwoFields(DisplayName, g, d, off) == Some(([], w)) <==>
            RunLen(DisplayName, d[off..]) > 20 && d[off - 1] == NUL && FieldOk(g, w) && Ends(d[off..], w)
  {
    hide RunLen, FieldAt, FieldOk;
    if TwoFields(DisplayName, g, d, off) == Some(([], w)) {
      EmptyField(DisplayName, d, off);
      LastInverse(g, d, off);
      ZEnds(d[off..], w);
    }
    if RunLen(DisplayName, d[off..]) > 20 && d[off - 1] == NUL && FieldOk(g, w) && Ends(d[off..], w) {
      LongField(DisplayName, d, off);
      FieldAtLast(g, d, off, w);
    }
  }

  lemma ZEnds(t: seq<byte>, w: seq<byte>)
    requires Z(w) == t || Z(w) == t + [NUL]
    ensures Ends(t, w)
  {
    if Z(w) == t + [NUL] {
      assert (t + [NUL])[..|t|] == t && Z(w)[..|w|] == w;
    }
  }

  lemma NotShort(t: seq<byte>, w: seq<byte>)
    requires Ends(t, w) && |t| > 20 && forall i :: 0 <= i <= 20 ==> t[i] != 0
    ensures |w| > 20
  {
    if t == w + [0] {
      assert t[|w|] == 0;
    }
  }

  lemma LongRun(g: Field, t: seq<byte>, w: seq<byte>)
    requires Legal(g, w) && Ends(t, w)
    ensures RunLen(DisplayName, t) > 20 <==> LongName(w)
    ensures g.Secret? ==> (LongName(w) <==> |w| > 20)
  {
    hide RunLen;
    if LongName(w) {
      RunLenAt(DisplayName, t, 21);
    }
    if RunLen(DisplayName, t) > 20 {
      assert forall i :: 0 <= i <= 20 ==> Allows(DisplayName, t[i]);
      NotShort(t, w);
      assert forall i :: 0 <= i <= 20 ==> t[i] == w[i];
    }
  }

  lemma TalkLong(d: seq<byte>, text: seq<byte>)
    requires |d| >= 3
    ensures TwoFields(DisplayName, Content, d, 3) == Some(([], text)) <==>
            |d| > 3 && d[2] == 0 && Legal(Content, text) && LongName(text) && Ends(d[3..], text)
  {
    hide RunLen, TwoFields, FieldOk, Legal, LongName;
    TwoLong(Content, d, 3, text);
    LegalIsFieldOk(Content, text);
    if Legal(Content, text) && Ends(d[3..], text) {
      LongRun(Content, d[3..], text);
      NotEmpty(Content, text);
    }
  }

  lemma NotEmpty(f: Field, s: seq<byte>)
    requires Legal(f, s)
    ensures s != []
  {
  }

  lemma SecretLong(d: seq<byte>, off: nat, secret: seq<byte>)
    requires 1 <= off <= |d|
    ensures TwoFields(DisplayName, Secret, d, off) == Some(([], secret)) <==>
            d[off - 1] == 0 && Legal(Secret, secret) && |secret| > 20 && Ends(d[off..], secret)
  {
    hide RunLen, TwoFields, FieldOk, Legal, LongName;
    TwoLong(Secret, d, off, secret);
    LegalIsFieldOk(Secret, secret);
    if Legal(Secret, secret) && Ends(d[off..], secret) {
      LongRun(Secret, d[off..], secret);
    }
  }

  /** An AUTH whose username is read as empty: then so is the display name. */
  lemma BothLong(d: seq<byte>, secret: seq<byte>)
    requires |d| >= 3 && Legal(Secret, secret) && |secret| > 20 && d[2] == 0 && Ends(d[3..], secret)
    ensures FieldAt(Username, d, 3) == Some(Piece([], 3))
  {
    hide RunLen, FieldAt;
    assert RunOf(Username, d[3..], 21);
    RunLenAt(Username, d[3..], 21);
    LongField(Username, d, 3);
  }

  /** A legal username and its terminator. */
  lemma UserRead(d: seq<byte>, user: seq<byte>, secret: seq<byte>)
    requires |d| >= 3 && Legal(Username, user) && secret != [] && Ends(d[3..], user + [0] + secret)
    ensures FieldAt(Username, d, 3) == Some(Piece(user, 3 + |user| + 1)) && 3 + |user| + 1 <= |d|
    ensures d[3 + |user|] == 0 && Ends(d[3 + |user| + 1..], secret)
  {
    hide FieldAt;
    LegalIsFieldOk(Username, user);
    var rest := if d[3..] == user + [0] + secret then secret else secret + [0];
    assert d[3..] == Z(user) + rest;
    Pieces(d, 3, user, rest);
    FieldAtInner(Username, d, 3, user, rest);
  }

  lemma AuthLong(d: seq<byte>, user: seq<byte>, name: seq<byte>, secret: seq<byte>)
    requires |d| >= 3 && d[0] == AUTH
    ensures DecodeBody(d) == Some(Auth(user, name, secret)) && !WellFormed(Auth(user, name, secret))
            <==> Shape(d, Auth(user, name, secret))
  {
    hide RunLen, TwoFields, FieldAt, FieldOk, Legal;
    if DecodeBody(d) == Some(Auth(user, name, secret)) && !WellFormed(Auth(user, name, secret)) {
      AuthFrom(d, user, name, secret);
    }
    if Shape(d, Auth(user, name, secret)) {
      AuthTo(d, user, secret);
      EmptyIsNotOk(DisplayName);
    }
  }

  lemma EmptyIsNotOk(f: Field)
    ensures !FieldOk(f, [])
  {
  }

  lemma AuthTo(d: seq<byte>, user: seq<byte>, secret: seq<byte>)
    requires Shape(d, Auth(user, [], secret))
    ensures DecodeBody(d) == Some(Auth(user, [], secret))
  {
    hide RunLen, TwoFields, FieldAt, FieldOk, Legal;
    if user == [] && d[2] == 0 && Ends(d[3..], secret) {
      BothLong(d, secret);
      SecretLong(d, 3, secret);
    } else {
      UserRead(d, user, secret);
      SecretLong(d, 3 + |user| + 1, secret);
    }
  }

  lemma AuthFrom(d: seq<byte>, user: seq<byte>, name: seq<byte>, secret: seq<byte>)
    requires |d| >= 3 && d[0] == AUTH && DecodeBody(d) == Some(Auth(user, name, secret))
    requires !WellFormed(Auth(user, name, secret))
    ensures Shape(d, Auth(user, name, secret))
  {
    hide RunLen, TwoFields, FieldAt, FieldOk, Legal, DecodeBody;
    var u, r := AuthParts(d);
    TwoFieldsInverse(DisplayName, Secret, d, u.next);
    FieldAtInverse(Username, d, 3);
    if user == [] {
      EmptyField(Username, d, 3);
      IdRunIsNameRun(d[3..]);
      assert name == [];
      SecretLong(d, 3, secret);
    } else {
      assert name == [];
      SecretLong(d, u.next, secret);
      NamedSplits(d, u);
      LegalIsFieldOk(Username, user);
      UserEnds(d, user, secret);
    }
  }

  lemma UserEnds(d: seq<byte>, user: seq<byte>, secret: seq<byte>)
    requires |d| >= 3 + |user| + 1 && d[3..] == Z(user) + d[3 + |user| + 1..] && Ends(d[3 + |user| + 1..], secret)
    ensures Ends(d[3..], user + [0] + secret)
  {
    assert user + [0] + (secret + [0]) == user + [0] + secret + [0];
  }

  lemma JoinLong(d: seq<byte>, b: Body)
    requires |d| >= 3 && d[0] == JOIN && DecodeBody(d) == Some(b)
    ensures WellFormed(b)
  {
    hide RunLen, TwoFields, FieldAt, FieldOk;
    TwoFieldsInverse(ChannelId, DisplayName, d, 3);
    JoinNotEmpty(d);
  }

  lemma ReplyLong(d: seq<byte>, b: Body)
    requires |d| >= 3 && d[0] == REPLY && DecodeBody(d) == Some(b)
    ensures WellFormed(b)
  {
    hide RunLen, FieldAt, FieldOk, DecodeBody;
    var c := ReplyParts(d);
    LastInverse(Content, d, 6);
  }

  lemma TalkIs(d: seq<byte>, b: Body)
    requires |d| >= 3 && (d[0] == MESSAGE || d[0] == ERR)
    ensures DecodeBody(d) == Some(b) && !WellFormed(b) <==> Shape(d, b)
  {
    hide RunLen, TwoFields, FieldAt, FieldOk, Legal, LongName, Ends;
    EmptyIsNotOk(DisplayName);
    if TwoFields(DisplayName, Content, d, 3).Some? {
      TwoFieldsInverse(DisplayName, Content, d, 3);
    }
    if b.Message? {
      TalkLong(d, b.content);
    }
    if b.Err? {
      TalkLong(d, b.content);
    }
  }

  lemma BodyLong(d: seq<byte>, b: Body)
    requires |d| >= 3
    ensures DecodeBody(d) == Some(b) && !WellFormed(b) <==> Shape(d, b)
  {
    hide RunLen, TwoFields, FieldAt, FieldOk, Legal, LongName, Ends;
    if d[0] == MESSAGE || d[0] == ERR {
      TalkIs(d, b);
    } else if d[0] == AUTH {
      if b.Auth? {
        AuthLong(d, b.username, b.displayName, b.secret);
      }
    } else if DecodeBody(d) == Some(b) {
      if d[0] == JOIN {
        JoinLong(d, b);
      } else if d[0] == REPLY {
        ReplyLong(d, b);
      }
    }
  }

  /** The datagrams accepted with an overlong field are exactly these. */
  lemma AcceptsOverlong(d: seq<byte>, p: Payload)
    ensures Decode(d) == Good(p) && !WellFormed(p.body) <==>
            |d| > 3 && p.id == 256 * (d[1] as int) + d[2] && Shape(d, p.body)
  {
    hide DecodeBody, Shape, WellFormed;
    if |d| >= 3 {
      BodyLong(d, p.body);
      ShapeLength(d, p.body);
    }
  }

  lemma ShapeLength(d: seq<byte>, b: Body)
    ensures Shape(d, b) ==> |d| > 3
  {
  }

  /** What is kept of a datagram that is refused: type and ID, if it is long enough to have them. */
  lemma RefusedHeader(d: seq<byte>)
    requires Decode(d).Bad?
    ensures Decode(d) == if |d| < 3 then Bad(0, 0) else Bad(d[0], 256 * (d[1] as int) + d[2])
  {
    hide DecodeBody;
  }
}
