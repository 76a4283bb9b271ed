/** The keyword trie of src/trie.c, on the heap, against a map from index paths to values. */
module Tries {
  import opened Window

  const ARITY: nat := 27

  type Paths = map<seq<int>, int>

  /** The path a key takes: its indexes up to the first byte that has none. */
  function Indexes(toIndex: byte -> int, s: seq<byte>): (r: seq<int>)
    ensures |r| <= |s|
  {
    if s == [] || toIndex(s[0]) < 0 then [] else [toIndex(s[0])] + Indexes(toIndex, s[1..])
  }

  lemma IndexesTail(toIndex: byte -> int, s: seq<byte>)
    requires s != [] && toIndex(s[0]) >= 0
    ensures Indexes(toIndex, s) == [toIndex(s[0])] + Indexes(toIndex, s[1..])
    ensures Indexes(toIndex, s)[1..] == Indexes(toIndex, s[1..])
  {
  }

  function Prefixes(key: seq<int>): set<seq<int>> {
    set i | 0 <= i <= |key| :: key[..i]
  }

  lemma PrefixesAre(key: seq<int>, p: seq<int>)
    ensures p in Prefixes(key) <==> p <= key
  {
    if p <= key {
      assert key[..|p|] == p;
    }
  }

  /** Inserting adds a node for every prefix of the key and sets the value of the last one. */
  function Inserted(m: Paths, key: seq<int>, value: int): Paths {
    map p | p in m.Keys + Prefixes(key) :: if p == key then value else if p in m then m[p] else -1
  }

  /** The walk of trie_match_prefix from the node at q[..k]. */
  function MatchFrom(m: Paths, q: seq<int>, k: nat): int
    requires k <= |q| && q[..k] in m
    decreases |q| - k
  {
    if k < |q| && q[..k + 1] in m then MatchFrom(m, q, k + 1) else m[q[..k]]
  }

  /** `nodes` is a root with `value` and the sub-tries `kids`, an absent one having no node. */
  ghost predicate Joined(nodes: Paths, value: int, kids: seq<Paths>) {
    && [] in nodes && nodes[[]] == value
    && (forall p :: p in nodes && p != [] ==>
          0 <= p[0] < |kids| && p[1..] in kids[p[0]] && nodes[p] == kids[p[0]][p[1..]])
    && (forall i, p :: 0 <= i < |kids| && p in kids[i] ==> [i] + p in nodes)
  }

  lemma JoinedInsert(nodes: Paths, value: int, kids: seq<Paths>, key: seq<int>, v: int)
    requires Joined(nodes, value, kids) && key != [] && 0 <= key[0] < |kids|
    ensures Joined(Inserted(nodes, key, v), value, kids[key[0] := Inserted(kids[key[0]], key[1..], v)])
  {
    var i := key[0];
    var nodes' := Inserted(nodes, key, v);
    var kids' := kids[i := Inserted(kids[i], key[1..], v)];
    PrefixesAre(key, []);
    forall p | p in nodes' && p != []
      ensures 0 <= p[0] < |kids'| && p[1..] in kids'[p[0]] && nodes'[p] == kids'[p[0]][p[1..]]
    {
      PrefixesAre(key, p);
      PrefixesAre(key[1..], p[1..]);
      PrefixTail(key, p);
    }
    forall j, p | 0 <= j < |kids'| && p in kids'[j]
      ensures [j] + p in nodes'
    {
      PrefixesAre(key, [j] + p);
      PrefixesAre(key[1..], p);
      PrefixTail(key, [j] + p);
      assert ([j] + p)[1..] == p;
    }
  }

  lemma JoinedRoot(nodes: Paths, value: int, kids: seq<Paths>, v: int)
    requires Joined(nodes, value, kids)
    ensures Joined(Inserted(nodes, [], v), v, kids)
  {
    forall p: seq<int>
      ensures p in Prefixes([]) <==> p == []
    {
      PrefixesAre([], p);
    }
  }

  lemma PrefixTail(key: seq<int>, p: seq<int>)
    requires key != [] && p != []
    ensures p <= key <==> p[0] == key[0] && p[1..] <= key[1..]
    ensures p == key <==> p[0] == key[0] && p[1..] == key[1..]
    ensures [p[0]] + p[1..] == p
  {
    assert [p[0]] + p[1..] == p;
    assert [key[0]] + key[1..] == key;
  }

  /** A node added ahead of an insertion below it makes no difference. */
  lemma InsertedFresh(key: seq<int>, v: int)
    ensures Inserted(map[[] := -1], key, v) == Inserted(map[], key, v)
  {
    PrefixesAre(key, []);
  }

  lemma KidsUpdated(before: seq<Paths>, after: seq<Paths>, i: nat, m: Paths)
    requires |before| == |after| && i < |after| && after[i] == m
    requires forall j :: 0 <= j < |after| && j != i ==> after[j] == before[j]
    ensures after == before[i := m]
  {
  }

  // ---------------------------------------------------------------- the heap trie

  class Trie {
    var value: int
    const toIndex: byte -> int
    const children: array<Trie?>
    ghost var Repr: set<object>
    ghost var Nodes: Paths

    ghost predicate Valid()
      reads this, Repr
      ensures Valid() ==> this in Repr
      decreases Repr
    {
      && Shape()
      && (forall i :: 0 <= i < ARITY && children[i] != null ==> children[i].toIndex == toIndex && children[i].Valid())
      && Joined(Nodes, value, Kids())
    }

    ghost predicate Shape()
      reads this, Repr
      ensures Shape() ==> this in Repr
    {
      && this in Repr && children in Repr && children.Length == ARITY
      && (forall b: byte :: toIndex(b) < ARITY) && toIndex(NUL) < 0
      && (forall i :: 0 <= i < ARITY && children[i] != null ==>
            && children[i] in Repr && children[i].Repr <= Repr
            && this !in children[i].Repr && children !in children[i].Repr)
      && (forall i, j :: 0 <= i < j < ARITY && children[i] != null && children[j] != null ==>
            children[i].Repr !! children[j].Repr)
    }

    /** The abstract values of the sub-tries. */
    ghost function Kids(): (kids: seq<Paths>)
      reads this, Repr
      requires Shape()
      ensures |kids| == ARITY
    {
      seq(ARITY, i requires 0 <= i < ARITY reads this, Repr requires Shape() =>
        if children[i] == null then map[] else children[i].Nodes)
    }

    constructor (func: byte -> int)
      requires (forall b: byte :: func(b) < ARITY) && func(NUL) < 0
      ensures Valid() && fresh(Repr) && toIndex == func && Nodes == map[[] := -1]
    {
      toIndex := func;
      value := -1;
      children := new Trie?[ARITY](_ => null);
      Repr := {this, children};
      Nodes := map[[] := -1];
    }

    method Insert(str: seq<byte>, v: int)
      requires Valid()
      modifies Repr
      ensures Valid() && fresh(Repr - old(Repr))
      ensures Nodes == Inserted(old(Nodes), Indexes(toIndex, str), v)
      decreases |str|, 1
    {
      var b := if str == [] then NUL else str[0];
      var index := toIndex(b);
      if index < 0 {
        SetValue(v);
      } else {
        ghost var key, kids := Indexes(toIndex, str), Kids();
        JoinedInsert(Nodes, value, kids, key, v);
        InsertedFresh(key[1..], v);
        hide Joined, Inserted, Indexes;
        EnsureChild(index);
        InsertBelow(index, str, v, kids);
      }
    }

    method SetValue(v: int)
      requires Valid()
      modifies this`value, this`Nodes
      ensures Valid() && Nodes == Inserted(old(Nodes), [], v)
    {
      hide Inserted, Joined;
      ghost var kids := Kids();
      JoinedRoot(Nodes, value, kids, v);
      value := v;
      Nodes := Inserted(Nodes, [], v);
      assert Kids() == kids;
    }

    ghost predicate ChildrenValid()
      reads this, Repr
      requires Shape()
    {
      forall i :: 0 <= i < ARITY && children[i] != null ==> children[i].toIndex == toIndex && children[i].Valid()
    }

    method EnsureChild(index: nat)
      requires Shape() && ChildrenValid() && index < ARITY
      modifies this`Repr, children
      ensures Shape() && ChildrenValid() && fresh(Repr - old(Repr)) && old(Repr) <= Repr
      ensures children[index] != null
      ensures forall i :: 0 <= i < ARITY && i != index ==> Kids()[i] == old(Kids())[i]
      ensures Kids()[index] == if old(children[index]) == null then map[[] := -1] else old(Kids())[index]
    {
      hide Joined;
      if children[index] == null {
        var sub := new Trie(toIndex);
        children[index] := sub;
        Repr := Repr + sub.Repr;
      }
    }

    /** The recursive call of trie_insert, once the child at `index` exists. */
    method InsertBelow(index: nat, str: seq<byte>, v: int, ghost kids: seq<Paths>)
      requires str != [] && index == toIndex(str[0]) && index < ARITY
      requires Shape() && children[index] != null && ChildrenValid()
      requires |kids| == ARITY && forall i :: 0 <= i < ARITY && i != index ==> Kids()[i] == kids[i]
      requires Inserted(children[index].Nodes, Indexes(toIndex, str)[1..], v)
               == Inserted(kids[index], Indexes(toIndex, str)[1..], v)
      requires Joined(Inserted(Nodes, Indexes(toIndex, str), v), value,
                      kids[index := Inserted(kids[index], Indexes(toIndex, str)[1..], v)])
      modifies Repr
      ensures Valid() && fresh(Repr - old(Repr))
      ensures Nodes == Inserted(old(Nodes), Indexes(toIndex, str), v)
      decreases |str|, 0
    {
      hide Joined, Inserted, Indexes;
      var child := children[index];
      ghost var key := Indexes(toIndex, str);
      IndexesTail(toIndex, str);
      child.Insert(str[1..], v);
      forall i | 0 <= i < ARITY && i != index && children[i] != null
        ensures children[i].Repr !! child.Repr && children[i].Valid()
        ensures children[i].Repr == old(children[i].Repr) && children[i].Nodes == old(children[i].Nodes)
      {
        assert old(children[i].Repr) !! old(child.Repr);
        assert old(children[i].Valid());
      }
      Repr := Repr + child.Repr;
      Nodes := Inserted(Nodes, key, v);
      assert Shape();
      KidsUpdated(kids, Kids(), index, Inserted(kids[index], key[1..], v));
    }

    /** trie_match_prefix; the byte after `str` is the terminating NUL. */
    method MatchPrefix(str: seq<byte>) returns (r: int)
      requires Valid()
      ensures r == Match(Nodes, Indexes(toIndex, str))
    {
      hide Joined, Inserted, Valid, Indexes, MatchFrom, Match, Below, ChildOf;
      ghost var q := Indexes(toIndex, str);
      var node: Trie := this;
      var k := 0;
      node.Root();
      BelowStart(Nodes, q);
      assert str[0..] == str && q[0..] == q;
      while true
        invariant node.Valid() && node.toIndex == toIndex
        invariant 0 <= k <= |q| && k <= |str| && Indexes(toIndex, str[k..]) == q[k..]
        invariant q[..k] in Nodes && Below(Nodes, node.Nodes, q[..k])
        invariant Match(Nodes, q) == MatchFrom(Nodes, q, k)
        decreases node.Repr
      {
        var b := if k < |str| then str[k] else NUL;
        var index := toIndex(b);
        node.Root();
        IndexesAt(toIndex, str, k);
        if index < 0 || node.children[index] == null {
          node.StopsHere(q, k, index);
          BelowStop(Nodes, node.Nodes, q, k);
          return node.value;
        }
        node.GoesOn(index);
        BelowStep(Nodes, node.Nodes, node.children[index].Nodes, q, k);
        node := node.children[index];
        k := k + 1;
      }
    }

    lemma Root()
      requires Valid()
      ensures [] in Nodes && Nodes[[]] == value
      ensures children.Length == ARITY && (forall b: byte :: toIndex(b) < ARITY) && toIndex(NUL) < 0
    {
    }

    lemma StopsHere(q: seq<int>, k: nat, index: int)
      requires Valid() && k <= |q| && index < ARITY
      requires (k < |q| ==> q[k] == index) && (index < 0 ==> k == |q|)
      requires index >= 0 ==> children[index] == null
      ensures [] in Nodes && Nodes[[]] == value
      ensures k < |q| ==> [q[k]] !in Nodes
    {
      if k < |q| {
        assert [q[k]][1..] == [];
      }
    }

    lemma GoesOn(index: nat)
      requires Valid() && index < ARITY && children[index] != null
      ensures children[index].Valid() && children[index].toIndex == toIndex && children[index].Repr < Repr
      ensures ChildOf(children[index].Nodes, Nodes, index)
    {
      assert Kids()[index] == children[index].Nodes;
      forall p
        ensures p in children[index].Nodes <==> [index] + p in Nodes
        ensures p in children[index].Nodes ==> Nodes[[index] + p] == children[index].Nodes[p]
      {
        assert ([index] + p)[1..] == p;
      }
    }
  }

  // ---------------------------------------------------------------- the walk

  function Match(m: Paths, q: seq<int>): int
  {
    if [] in m then
      assert q[..0] == [];
      MatchFrom(m, q, 0)
    else -1
  }

  /** `sub` is what `m` holds below the node `path`. */
  ghost predicate Below(m: Paths, sub: Paths, path: seq<int>) {
    && [] in sub
    && (forall p :: p in sub <==> path + p in m)
    && (forall p :: p in sub ==> sub[p] == m[path + p])
  }

  /** `child` is what `m` holds below the node of the single index `i`. */
  ghost predicate ChildOf(child: Paths, m: Paths, i: int) {
    && [] in child
    && (forall p :: p in child <==> [i] + p in m)
    && (forall p :: p in child ==> m[[i] + p] == child[p])
  }

  lemma BelowStart(m: Paths, q: seq<int>)
    requires [] in m
    ensures q[..0] in m && Below(m, m, q[..0]) && Match(m, q) == MatchFrom(m, q, 0)
  {
    assert q[..0] == [];
    forall p: seq<int>
      ensures [] + p == p
    {
    }
  }

  lemma BelowStop(m: Paths, sub: Paths, q: seq<int>, k: nat)
    requires k <= |q| && Below(m, sub, q[..k]) && (k < |q| ==> [q[k]] !in sub)
    ensures q[..k] in m && MatchFrom(m, q, k) == sub[[]]
  {
    assert q[..k] + [] == q[..k];
    if k < |q| {
      assert q[..k] + [q[k]] == q[..k + 1];
    }
  }

  lemma BelowStep(m: Paths, sub: Paths, child: Paths, q: seq<int>, k: nat)
    requires k < |q| && Below(m, sub, q[..k]) && ChildOf(child, sub, q[k])
    ensures q[..k] in m && q[..k + 1] in m
    ensures MatchFrom(m, q, k) == MatchFrom(m, q, k + 1) && Below(m, child, q[..k + 1])
  {
    assert q[..k] + [] == q[..k];
    assert q[..k] + [q[k]] == q[..k + 1] && [q[k]] + [] == [q[k]];
    forall p
      ensures p in child <==> q[..k + 1] + p in m
      ensures p in child ==> child[p] == m[q[..k + 1] + p]
    {
      assert q[..k + 1] + p == q[..k] + ([q[k]] + p);
    }
  }

  /** The index sequence, read one byte at a time. */
  lemma IndexesAt(toIndex: byte -> int, s: seq<byte>, k: nat)
    requires k <= |s| && k <= |Indexes(toIndex, s)| && Indexes(toIndex, s[k..]) == Indexes(toIndex, s)[k..]
    ensures k == |s| || toIndex(s[k]) < 0 ==> k == |Indexes(toIndex, s)|
    ensures k < |s| && toIndex(s[k]) >= 0 ==>
              k < |Indexes(toIndex, s)| && Indexes(toIndex, s)[k] == toIndex(s[k])
              && Indexes(toIndex, s[k + 1..]) == Indexes(toIndex, s)[k + 1..]
  {
    var q := Indexes(toIndex, s);
    if k < |s| && toIndex(s[k]) >= 0 {
      IndexesTail(toIndex, s[k..]);
      assert s[k..][1..] == s[k + 1..] && q[k] == q[k..][0];
      assert q[k..][1..] == q[k + 1..];
    }
  }
}
