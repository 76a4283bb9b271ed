/**
 The byte window of src/bytes.c: a fixed array of BYTES_SIZE bytes of which the slice
 starting at `offset` and `len` long is in use.  Every operation is specified on that slice.
 */
module Window {

  type byte = b: int | 0 <= b < 256

  const BYTES_SIZE: nat := 1501
  const NUL: byte := 0
  const SPACE: byte := 32

  /** The bytes of an ASCII literal. */
  function Ascii(s: string): (b: seq<byte>)
    ensures |b| == |s|
    ensures forall i :: 0 <= i < |s| ==> b[i] == s[i] as int % 256
  {
    seq(|s|, i requires 0 <= i < |s| => s[i] as int % 256)
  }

  /** What is left of `s` after `n` bytes are skipped, at most all of them. */
  function Skip(s: seq<byte>, n: nat): seq<byte> {
    if n <= |s| then s[n..] else []
  }

  function TrimRight(s: seq<byte>, ch: byte): seq<byte> {
    if s != [] && s[|s| - 1] == ch then TrimRight(s[..|s| - 1], ch) else s
  }

  function TrimLeft(s: seq<byte>, ch: byte): seq<byte> {
    if s != [] && s[0] == ch then TrimLeft(s[1..], ch) else s
  }

  function Trim(s: seq<byte>, ch: byte): seq<byte> {
    TrimLeft(TrimRight(s, ch), ch)
  }

  predicate AllAre(s: seq<byte>, ch: byte) {
    forall i :: 0 <= i < |s| ==> s[i] == ch
  }

  predicate NoEdge(s: seq<byte>, ch: byte) {
    s != [] ==> s[0] != ch && s[|s| - 1] != ch
  }

  lemma {:induction false} TrimRightSplits(s: seq<byte>, ch: byte) returns (tail: seq<byte>)
    ensures s == TrimRight(s, ch) + tail && AllAre(tail, ch)
    ensures TrimRight(s, ch) != [] ==> TrimRight(s, ch)[|TrimRight(s, ch)| - 1] != ch
  {
    if s != [] && s[|s| - 1] == ch {
      var t := TrimRightSplits(s[..|s| - 1], ch);
      tail := t + [ch];
      assert s == s[..|s| - 1] + [ch];
    } else {
      tail := [];
    }
  }

  lemma {:induction false} TrimLeftSplits(s: seq<byte>, ch: byte) returns (head: seq<byte>)
    ensures s == head + TrimLeft(s, ch) && AllAre(head, ch)
    ensures TrimLeft(s, ch) != [] ==> TrimLeft(s, ch)[0] != ch
  {
    if s != [] && s[0] == ch {
      var h := TrimLeftSplits(s[1..], ch);
      head := [ch] + h;
      assert s == [ch] + s[1..];
    } else {
      head := [];
    }
  }

  /** Trimming takes away exactly a run of `ch` at either end and leaves none at the edges. */
  lemma TrimSplits(s: seq<byte>, ch: byte) returns (head: seq<byte>, tail: seq<byte>)
    ensures s == head + Trim(s, ch) + tail
    ensures AllAre(head, ch) && AllAre(tail, ch) && NoEdge(Trim(s, ch), ch)
  {
    tail := TrimRightSplits(s, ch);
    head := TrimLeftSplits(TrimRight(s, ch), ch);
    var r, t := TrimRight(s, ch), Trim(s, ch);
    if t != [] {
      assert t[|t| - 1] == r[|r| - 1];
    }
  }

  lemma {:induction false} TrimLeftFixed(s: seq<byte>, t: seq<byte>, ch: byte)
    requires AllAre(s, ch) && (t != [] ==> t[0] != ch)
    ensures TrimLeft(s + t, ch) == t
  {
    if s == [] {
      assert s + t == t;
    } else {
      assert (s + t)[1..] == s[1..] + t;
      TrimLeftFixed(s[1..], t, ch);
    }
  }

  lemma {:induction false} TrimRightFixed(t: seq<byte>, s: seq<byte>, ch: byte)
    requires AllAre(s, ch) && (t != [] ==> t[|t| - 1] != ch)
    ensures TrimRight(t + s, ch) == t
  {
    if s == [] {
      assert t + s == t;
    } else {
      assert (t + s)[..|t + s| - 1] == t + s[..|s| - 1];
      TrimRightFixed(t, s[..|s| - 1], ch);
    }
  }

  /** The split of TrimSplits determines the trimmed text: it is the only one. */
  lemma TrimUnique(head: seq<byte>, t: seq<byte>, tail: seq<byte>, ch: byte)
    requires AllAre(head, ch) && AllAre(tail, ch) && NoEdge(t, ch)
    ensures Trim(head + t + tail, ch) == t
  {
    if t == [] {
      assert AllAre(head + t + tail, ch);
      TrimRightFixed([], head + t + tail, ch);
      assert [] + (head + t + tail) == head + t + tail;
    } else {
      TrimRightFixed(head + t, tail, ch);
      TrimLeftFixed(head, t, ch);
    }
  }

  class Bytes {
    const data: array<byte>
    var len: nat
    var offset: nat

    ghost predicate Valid()
      reads this
    {
      data.Length == BYTES_SIZE && offset + len <= BYTES_SIZE
    }

    /** The slice in use. */
    ghost function View(): (s: seq<byte>)
      reads this, data
      requires Valid()
    {
      data[offset..offset + len]
    }

    /** Everything from the start of the array to the end of the slice. */
    ghost function Whole(): (s: seq<byte>)
      reads this, data
      requires Valid()
    {
      data[..offset + len]
    }

    /** The slice reads as a C string: the byte after it is NUL. */
    ghost predicate Terminated()
      reads this, data
      requires Valid()
    {
      offset + len < BYTES_SIZE ==> data[offset + len] == NUL
    }

    /** All bytes after the slice are NUL, as in a buffer that was only pushed to. */
    ghost predicate ZeroTail()
      reads this, data
      requires Valid()
    {
      forall i :: offset + len <= i < BYTES_SIZE ==> data[i] == NUL
    }

    constructor ()
      ensures Valid() && ZeroTail() && fresh(data)
      ensures View() == [] && offset == 0
    {
      data := new byte[BYTES_SIZE](_ => 0);
      len := 0;
      offset := 0;
    }

    /** A zeroed buffer into which `received` has been read. */
    constructor Receive(received: seq<byte>)
      requires |received| <= BYTES_SIZE
      ensures Valid() && ZeroTail() && fresh(data)
      ensures View() == Whole() == received && offset == 0
    {
      data := new byte[BYTES_SIZE](i => if 0 <= i < |received| then received[i] else 0);
      len := |received|;
      offset := 0;
    }

    /** bytes_get()[i]: may look one byte past the slice. */
    function At(i: nat): (b: byte)
      reads this, data
      requires Valid() && offset + i < BYTES_SIZE
      ensures i < len ==> b == View()[i]
      ensures i == len && Terminated() ==> b == NUL
    {
      data[offset + i]
    }

    method PushArr(arr: seq<byte>)
      requires Valid() && offset + len + |arr| <= BYTES_SIZE
      modifies this`len, data
      ensures Valid() && offset == old(offset)
      ensures View() == old(View()) + arr
      ensures old(ZeroTail()) ==> ZeroTail()
    {
      var i := 0;
      while i < |arr|
        modifies data
        invariant 0 <= i <= |arr|
        invariant forall j :: 0 <= j < i ==> data[offset + len + j] == arr[j]
        invariant forall j :: 0 <= j < BYTES_SIZE && !(offset + len <= j < offset + len + i) ==> data[j] == old(data[j])
      {
        data[offset + len + i] := arr[i];
        i := i + 1;
      }
      len := len + |arr|;
      assert View() == old(View()) + arr by {
        assert |View()| == |old(View())| + |arr|;
        forall k | 0 <= k < |View()|
          ensures View()[k] == (old(View()) + arr)[k]
        {
        }
      }
    }

    /**
     Strips `ch` from both ends.  With an empty slice the C loop would look at the byte before
     the array; the guard `len > 0` stands for stopping there.
     */
    method TrimBoth(ch: byte) returns (count: nat)
      requires Valid() && offset + len < BYTES_SIZE && ch != NUL
      modifies this, data
      ensures Valid() && Terminated() && offset + len < BYTES_SIZE
      ensures View() == Trim(old(View()), ch)
      ensures count == |old(View())| - |View()|
    {
      var atEnd := TrimEnd(ch);
      data[offset + len] := 0;
      assert View() == TrimRight(old(View()), ch);
      var atStart := TrimStart(ch);
      count := atEnd + atStart;
    }

    /** The first loop of bytes_trim. */
    method TrimEnd(ch: byte) returns (count: nat)
      requires Valid()
      modifies this`len
      ensures Valid() && View() == TrimRight(old(View()), ch)
      ensures count == old(len) - len
    {
      count := 0;
      while len > 0 && data[len + offset - 1] == ch
        invariant Valid() && len + count == old(len)
        invariant TrimRight(View(), ch) == TrimRight(old(View()), ch)
      {
        ghost var v := View();
        len := len - 1;
        count := count + 1;
        assert View() == v[..|v| - 1];
      }
    }

    /** The second loop of bytes_trim: the NUL behind the slice ends it. */
    method TrimStart(ch: byte) returns (count: nat)
      requires Valid() && offset + len < BYTES_SIZE && Terminated() && ch != NUL
      modifies this`len, this`offset
      ensures Valid() && offset + len == old(offset + len) && Terminated()
      ensures View() == TrimLeft(old(View()), ch)
      ensures count == old(len) - len
    {
      count := 0;
      while data[offset] == ch
        invariant Valid() && offset + len == old(offset + len) && len + count == old(len)
        invariant TrimLeft(View(), ch) == TrimLeft(old(View()), ch)
        decreases len
      {
        ghost var v := View();
        offset := offset + 1;
        count := count + 1;
        len := len - 1;
        assert View() == v[1..];
      }
    }

    method SkipFirstN(n: nat)
      requires Valid()
      modifies this`len, this`offset
      ensures Valid() && View() == Skip(old(View()), n)
      ensures View() == old(View())[if n <= old(len) then n else old(len)..]
      ensures offset + len == old(offset + len)
      ensures offset == if n <= old(len) then old(offset) + n else old(offset + len)
    {
      var k := if len < n then len else n;
      offset := offset + k;
      len := len - k;
    }
  }
}
