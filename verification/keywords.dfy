/** What a trie built by insertions answers: the longest-prefix rule, and exact keyword dispatch. */
module Keywords {
  import opened Window
  import opened Tries

  datatype Entry = Entry(key: seq<int>, value: int)

  /** The nodes after these insertions, oldest first, into a new trie. */
  function Built(es: seq<Entry>): Paths {
    if es == [] then map[[] := -1]
    else Inserted(Built(es[..|es| - 1]), es[|es| - 1].key, es[|es| - 1].value)
  }

  /** The value last inserted for exactly this path, -1 if none was. */
  function LastValue(es: seq<Entry>, p: seq<int>): int {
    if es == [] then -1
    else if es[|es| - 1].key == p then es[|es| - 1].value
    else LastValue(es[..|es| - 1], p)
  }

  /** `p` is the root or a prefix of some inserted key. */
  ghost predicate Reaches(es: seq<Entry>, p: seq<int>) {
    p == [] || exists i :: 0 <= i < |es| && p <= es[i].key
  }

  lemma {:induction false} BuiltIs(es: seq<Entry>, p: seq<int>)
    ensures p in Built(es) <==> Reaches(es, p)
    ensures p in Built(es) ==> Built(es)[p] == LastValue(es, p)
    ensures !Reaches(es, p) ==> LastValue(es, p) == -1
  {
    if es != [] {
      var init, e := es[..|es| - 1], es[|es| - 1];
      BuiltIs(init, p);
      PrefixesAre(e.key, p);
      assert forall i :: 0 <= i < |init| ==> init[i] == es[i];
    }
  }

  /**
   After any insertions a query is answered by the value last inserted for the longest prefix of
   the query's path that is a prefix of some inserted key; -1 when that prefix is not a key.
   */
  lemma MatchIsLongest(es: seq<Entry>, q: seq<int>) returns (k: nat)
    ensures k <= |q| && Reaches(es, q[..k])
    ensures forall j :: k < j <= |q| ==> !Reaches(es, q[..j])
    ensures Match(Built(es), q) == LastValue(es, q[..k])
  {
    BuiltIs(es, []);
    assert q[..0] == [];
    k := WalkIsLongest(es, q, 0);
  }

  lemma {:induction false} WalkIsLongest(es: seq<Entry>, q: seq<int>, from: nat) returns (k: nat)
    requires from <= |q| && q[..from] in Built(es)
    ensures from <= k <= |q| && Reaches(es, q[..k])
    ensures forall j :: k < j <= |q| ==> !Reaches(es, q[..j])
    ensures MatchFrom(Built(es), q, from) == LastValue(es, q[..k])
    decreases |q| - from
  {
    if from < |q| && q[..from + 1] in Built(es) {
      k := WalkIsLongest(es, q, from + 1);
    } else {
      k := from;
      BuiltIs(es, q[..from]);
      forall j | from < j <= |q|
        ensures !Reaches(es, q[..j])
      {
        BuiltIs(es, q[..from + 1]);
        if Reaches(es, q[..j]) {
          ReachesPrefix(es, q[..from + 1], q[..j]);
        }
      }
    }
  }

  lemma ReachesPrefix(es: seq<Entry>, p: seq<int>, r: seq<int>)
    requires p <= r && Reaches(es, r)
    ensures Reaches(es, p)
  {
    if p != [] {
      var i :| 0 <= i < |es| && r <= es[i].key;
      assert p <= es[i].key;
    }
  }

  /** No key is a prefix of another one. */
  predicate PrefixFree(es: seq<Entry>) {
    forall i, j :: 0 <= i < |es| && 0 <= j < |es| && i != j ==> !(es[i].key <= es[j].key)
  }

  lemma DistinctFirst(es: seq<Entry>, first: seq<int>)
    requires |es| == |first| && forall i :: 0 <= i < |es| ==> es[i].key != [] && es[i].key[0] == first[i]
    requires forall i, j :: 0 <= i < j < |first| ==> first[i] != first[j]
    ensures PrefixFree(es)
  {
    forall i, j | 0 <= i < |es| && 0 <= j < |es| && i != j
      ensures !(es[i].key <= es[j].key)
    {
      assert es[i].key[0] != es[j].key[0];
    }
  }

  /** The table read from the front: the value of the first key that prefixes the query. */
  function LinearScan(es: seq<Entry>, q: seq<int>): int {
    if es == [] then -1
    else if es[0].key <= q then es[0].value
    else LinearScan(es[1..], q)
  }

  lemma {:induction false} LinearScanIs(es: seq<Entry>, q: seq<int>) returns (i: nat)
    ensures i <= |es| && (forall j :: 0 <= j < i ==> !(es[j].key <= q))
    ensures if i < |es| then es[i].key <= q && LinearScan(es, q) == es[i].value else LinearScan(es, q) == -1
  {
    if es == [] || es[0].key <= q {
      i := 0;
    } else {
      var k := LinearScanIs(es[1..], q);
      i := k + 1;
      assert forall j :: 0 < j < i ==> es[j] == es[1..][j - 1];
    }
  }

  lemma {:induction false} LastValueOfKey(es: seq<Entry>, i: nat)
    requires i < |es| && PrefixFree(es)
    ensures LastValue(es, es[i].key) == es[i].value
  {
    if i < |es| - 1 {
      assert es[|es| - 1].key != es[i].key;
      LastValueOfKey(es[..|es| - 1], i);
    }
  }

  lemma {:induction false} LastValueOfOther(es: seq<Entry>, p: seq<int>)
    requires forall i :: 0 <= i < |es| ==> es[i].key != p
    ensures LastValue(es, p) == -1
  {
    if es != [] {
      LastValueOfOther(es[..|es| - 1], p);
    }
  }

  /** Nothing longer than a key of a prefix-free table has a node. */
  lemma NoExtension(es: seq<Entry>, i: nat, p: seq<int>)
    requires i < |es| && PrefixFree(es) && es[i].key <= p && Reaches(es, p)
    ensures p == es[i].key
  {
    if p != [] {
      var j :| 0 <= j < |es| && p <= es[j].key;
      assert es[i].key <= es[j].key;
      assert i == j;
    }
  }

  /** With prefix-free keys the trie answers like a linear scan of its table. */
  lemma DispatchExact(es: seq<Entry>, q: seq<int>)
    requires PrefixFree(es)
    ensures Match(Built(es), q) == LinearScan(es, q)
  {
    var k := MatchIsLongest(es, q);
    var i := LinearScanIs(es, q);
    if i < |es| {
      var n := |es[i].key|;
      assert q[..n] == es[i].key;
      assert Reaches(es, q[..n]);
      assert es[i].key <= q[..k];
      NoExtension(es, i, q[..k]);
      LastValueOfKey(es, i);
    } else {
      forall j | 0 <= j < |es|
        ensures es[j].key != q[..k]
      {
        assert !(es[j].key <= q);
      }
      LastValueOfOther(es, q[..k]);
    }
  }

  /** A key all of whose bytes have an index prefixes a text exactly when the indexes agree byte by byte. */
  lemma {:induction false} IndexPrefix(toIndex: byte -> int, key: seq<byte>, s: seq<byte>)
    requires forall i :: 0 <= i < |key| ==> toIndex(key[i]) >= 0
    ensures Indexes(toIndex, key) <= Indexes(toIndex, s)
            <==> |key| <= |s| && forall i :: 0 <= i < |key| ==> toIndex(s[i]) == toIndex(key[i])
  {
    if key != [] && s != [] && toIndex(s[0]) == toIndex(key[0]) {
      IndexPrefix(toIndex, key[1..], s[1..]);
      PrefixTail(Indexes(toIndex, s), Indexes(toIndex, key));
      IndexesTail(toIndex, key);
      IndexesTail(toIndex, s);
      assert forall i :: 0 < i < |key| ==> key[i] == key[1..][i - 1];
      assert |key| <= |s| ==> forall i :: 0 < i < |key| ==> s[i] == s[1..][i - 1];
      if |key| <= |s| && forall i :: 0 <= i < |key| ==> toIndex(s[i]) == toIndex(key[i]) {
        assert forall i :: 0 <= i < |key| - 1 ==> toIndex(s[1..][i]) == toIndex(s[i + 1]) == toIndex(key[1..][i]);
      }
    } else if key != [] {
      IndexesTail(toIndex, key);
      var p, q := Indexes(toIndex, key), Indexes(toIndex, s);
      assert q == [] || q[0] != p[0];
      assert |key| <= |s| ==> toIndex(s[0]) != toIndex(key[0]);
    }
  }

  /** A key stops at its first byte without an index. */
  lemma {:induction false} IndexesStop(toIndex: byte -> int, k: seq<byte>, rest: seq<byte>)
    requires forall i :: 0 <= i < |k| ==> toIndex(k[i]) >= 0
    requires rest != [] && toIndex(rest[0]) < 0
    ensures Indexes(toIndex, k + rest) == Indexes(toIndex, k)
  {
    if k == [] {
      assert k + rest == rest;
    } else {
      assert (k + rest)[1..] == k[1..] + rest;
      IndexesStop(toIndex, k[1..], rest);
    }
  }

  lemma BuiltEmpty(es: seq<Entry>)
    ensures Built(es[..0]) == map[[] := -1]
  {
  }

  lemma BuiltStep(es: seq<Entry>, i: nat)
    requires i < |es|
    ensures Built(es[..i + 1]) == Inserted(Built(es[..i]), es[i].key, es[i].value)
  {
    assert es[..i + 1][..i] == es[..i];
  }
}
