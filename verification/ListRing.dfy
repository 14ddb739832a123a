/**
  Intrusive circular doubly linked lists. A list is a ring of nodes one of which
  is its head; `Ring` ties the links to the sequence of nodes met from the head on.
 */
module ListRing {

  /** A struct list_head; `item` is the struct it is embedded in, which list_entry recovers. */
  class Node<T> {
    var next: Node?<T>
    var prev: Node?<T>
    const item: T

    /** INIT_LIST_HEAD on a new node. */
    constructor (item: T)
      ensures this.item == item && Ring([this])
    {
      this.item := item;
      new;
      next, prev := this, this;
    }
  }

  ghost predicate Distinct<T>(s: seq<Node<T>>) {
    forall i, j :: 0 <= i < j < |s| ==> s[i] != s[j]
  }

  /** No other position holds node number `i`. */
  lemma OnlyAt<T>(s: seq<Node<T>>, i: nat)
    requires Distinct(s) && i < |s|
    ensures forall p :: 0 <= p < |s| && p != i ==> s[p] != s[i]
  {
  }

  /** The node after number `i`, around the ring. */
  function Follower<T>(s: seq<Node<T>>, i: nat): (n: Node<T>)
    requires i < |s|
    ensures n in s
  {
    if i + 1 < |s| then s[i + 1] else s[0]
  }

  /** The node before number `i`, around the ring. */
  function Leader<T>(s: seq<Node<T>>, i: nat): (n: Node<T>)
    requires i < |s|
    ensures n in s
  {
    if i > 0 then s[i - 1] else s[|s| - 1]
  }

  /** Neighbours in the sequence are linked both ways. */
  ghost predicate Chain<T>(s: seq<Node<T>>)
    reads s
  {
    && (forall i {:trigger s[i].next} :: 0 <= i < |s| - 1 ==> s[i].next == s[i + 1])
    && (forall i {:trigger s[i].prev} :: 0 < i < |s| ==> s[i].prev == s[i - 1])
  }

  /** The nodes are all the nodes of one circular list, in order. */
  ghost predicate Ring<T>(s: seq<Node<T>>)
    reads s
  {
    && |s| > 0 && Distinct(s) && Chain(s)
    && s[|s| - 1].next == s[0] && s[0].prev == s[|s| - 1]
  }

  lemma JoinChains<T>(a: seq<Node<T>>, b: seq<Node<T>>)
    requires Chain(a) && Chain(b)
    requires a != [] && b != [] ==> a[|a| - 1].next == b[0] && b[0].prev == a[|a| - 1]
    ensures Chain(a + b)
  {
  }

  /** INIT_LIST_HEAD. */
  method Init<T>(list: Node<T>)
    modifies list
    ensures Ring([list])
  {
    list.next := list;
    list.prev := list;
  }

  /** list_empty. */
  method Empty<T>(head: Node<T>, ghost s: seq<Node<T>>) returns (b: bool)
    requires Ring(s) && s[0] == head
    ensures b <==> |s| == 1
  {
    b := head.next == head;
  }

  /** __list_add between the neighbours at `i` and after it. */
  method Link<T>(node: Node<T>, prev: Node<T>, next: Node<T>, ghost s: seq<Node<T>>, ghost i: nat)
    requires Ring(s) && i < |s| && node !in s
    requires prev == s[i] && next == Follower(s, i)
    modifies node, prev, next
    ensures Ring(s[..i + 1] + [node] + s[i + 1..])
  {
    next.prev := node;
    node.next := next;
    node.prev := prev;
    prev.next := node;
  }

  /** list_add: right after the head, or after any other node of the ring. */
  method Add<T>(node: Node<T>, head: Node<T>, ghost s: seq<Node<T>>, ghost i: nat)
    requires Ring(s) && i < |s| && s[i] == head && node !in s
    modifies node, head, Follower(s, i)
    ensures Ring(s[..i + 1] + [node] + s[i + 1..])
  {
    Link(node, head, head.next, s, i);
  }

  /** list_add_tail: right before the head, which is the end, or before any other node. */
  method AddTail<T>(node: Node<T>, head: Node<T>, ghost s: seq<Node<T>>, ghost i: nat)
    requires Ring(s) && i < |s| && s[i] == head && node !in s
    modifies node, head, Leader(s, i)
    ensures Ring(if i == 0 then s + [node] else s[..i] + [node] + s[i..])
  {
    ghost var j := if i == 0 then |s| - 1 else i - 1;
    Link(node, head.prev, head, s, j);
    assert i == 0 ==> s[..j + 1] + [node] + s[j + 1..] == s + [node];
  }

  /** __list_del. */
  method Unlink<T>(entry: Node<T>, ghost s: seq<Node<T>>, ghost i: nat)
    requires Ring(s) && 1 <= i < |s| && s[i] == entry
    modifies Leader(s, i), Follower(s, i)
    ensures Ring(s[..i] + s[i + 1..])
    ensures entry.next == old(entry.next) && entry.prev == old(entry.prev)
  {
    var prev, next := entry.prev, entry.next;
    next.prev := prev;
    prev.next := next;
  }

  /** list_del. */
  method Del<T>(entry: Node<T>, ghost s: seq<Node<T>>, ghost i: nat)
    requires Ring(s) && 1 <= i < |s| && s[i] == entry
    modifies s
    ensures Ring(s[..i] + s[i + 1..])
    ensures entry.next == null && entry.prev == null
  {
    Unlink(entry, s, i);
    entry.next := null;
    entry.prev := null;
  }

  /** Two rings without a common node. */
  lemma Apart<T>(s: seq<Node<T>>, t: seq<Node<T>>)
    requires Distinct(s + t)
    ensures forall x :: x in s ==> x !in t
    ensures forall x :: x in t ==> x !in s
  {
    forall p, q | 0 <= p < |s| && 0 <= q < |t| ensures s[p] != t[q] {
      assert (s + t)[p] == s[p] && (s + t)[|s| + q] == t[q];
    }
  }

  lemma Removed<T>(s: seq<Node<T>>, i: nat)
    requires Distinct(s) && i < |s|
    ensures s[i] !in s[..i] + s[i + 1..]
    ensures forall x :: x in s[..i] + s[i + 1..] ==> x in s
  {
  }

  /** list_move_tail: an entry leaves its ring `s` and becomes the last of the ring `t`. */
  method MoveTail<T>(list: Node<T>, head: Node<T>, ghost s: seq<Node<T>>, ghost i: nat, ghost t: seq<Node<T>>)
    requires Ring(s) && 1 <= i < |s| && s[i] == list
    requires Ring(t) && t[0] == head && (t == s || Distinct(s + t))
    modifies s, t
    ensures t == s ==> Ring(s[..i] + s[i + 1..] + [list])
    ensures t != s ==> Ring(s[..i] + s[i + 1..]) && Ring(t + [list])
  {
    assert |t| > 0 && head in t && Leader(t, 0) in t;
    ghost var rest := UnlinkFrom(list, head, s, i, t);
    hide Ring, Distinct, Leader;
    AddTail(list, head, if t == s then rest else t, 0);
  }

  /** list_move: an entry leaves its ring `s` and becomes the first of the ring `t`. */
  method Move<T>(list: Node<T>, head: Node<T>, ghost s: seq<Node<T>>, ghost i: nat, ghost t: seq<Node<T>>)
    requires Ring(s) && 1 <= i < |s| && s[i] == list
    requires Ring(t) && t[0] == head && (t == s || Distinct(s + t))
    modifies s, t
    ensures t == s ==> Ring([head, list] + (s[..i] + s[i + 1..])[1..])
    ensures t != s ==> Ring(s[..i] + s[i + 1..]) && Ring([head, list] + t[1..])
  {
    assert |t| > 0 && head in t && Follower(t, 0) in t;
    ghost var rest := UnlinkFrom(list, head, s, i, t);
    hide Ring, Distinct, Follower;
    AddFirst(list, head, if t == s then rest else t);
  }

  /** list_add after the head itself. */
  method AddFirst<T>(node: Node<T>, head: Node<T>, ghost s: seq<Node<T>>)
    requires Ring(s) && s[0] == head && node !in s
    modifies node, head, Follower(s, 0)
    ensures Ring([head, node] + s[1..])
  {
    Add(node, head, s, 0);
    assert s[..1] + [node] + s[1..] == [head, node] + s[1..];
  }

  /** The removal half of a move: the target ring, if another, is not disturbed. */
  method UnlinkFrom<T>(list: Node<T>, head: Node<T>, ghost s: seq<Node<T>>, ghost i: nat, ghost t: seq<Node<T>>)
    returns (ghost rest: seq<Node<T>>)
    requires Ring(s) && 1 <= i < |s| && s[i] == list
    requires Ring(t) && t[0] == head && (t == s || Distinct(s + t))
    modifies Leader(s, i), Follower(s, i)
    ensures rest == s[..i] + s[i + 1..] && Ring(rest) && list !in rest
    ensures t != s ==> Ring(t) && list !in t && forall x :: x in t ==> x !in rest
    ensures forall x :: x in rest ==> x in s
  {
    rest := s[..i] + s[i + 1..];
    Removed(s, i);
    if t != s {
      Apart(s, t);
      assert Leader(s, i) in s && Follower(s, i) in s && s[i] in s;
    }
    hide Ring, Distinct;
    Unlink(list, s, i);
  }

  /** The ring with its first `k` entries moved behind the others. */
  function Rotated<T>(s: seq<Node<T>>, k: nat): (r: seq<Node<T>>)
    requires k < |s|
    ensures |r| == |s| && r[0] == s[0]
    ensures forall x :: x in r ==> x in s
  {
    [s[0]] + s[k + 1..] + s[1..k + 1]
  }

  lemma RotatedOnce<T>(s: seq<Node<T>>)
    requires 1 < |s|
    ensures Rotated(s, 1) == s[..1] + s[2..] + [s[1]]
  {
  }

  lemma RotatedAgain<T>(s: seq<Node<T>>, k: nat)
    requires k + 1 < |s|
    ensures Rotated(Rotated(s, k), 1) == Rotated(s, k + 1)
  {
    assert Rotated(s, k)[2..] == s[k + 2..] + s[1..k + 1];
    assert Rotated(s, k)[1..2] == [s[k + 1]];
  }

  /** list_rotate_left: the first entry becomes the last. */
  method RotateLeft<T>(head: Node<T>, ghost s: seq<Node<T>>)
    requires Ring(s) && s[0] == head
    modifies s
    ensures Ring(if |s| == 1 then s else Rotated(s, 1))
  {
    var empty := Empty(head, s);
    if !empty {
      hide Distinct, Rotated;
      var first := head.next;
      RotatedOnce(s);
      MoveTail(first, head, s, 1, s);
    }
  }

  /** As many rotations as there are entries restore the list. */
  method RotateAround<T>(head: Node<T>, n: nat, ghost s: seq<Node<T>>)
    requires Ring(s) && s[0] == head && n == |s| - 1
    modifies s
    ensures Ring(s)
  {
    assert Rotated(s, 0) == s;
    for i := 0 to n
      invariant Ring(Rotated(s, i))
    {
      hide Ring, Rotated;
      RotatedAgain(s, i);
      RotateLeft(head, Rotated(s, i));
    }
    assert Rotated(s, n) == s;
  }

  /** list_is_singular. */
  method Singular<T>(head: Node<T>, ghost s: seq<Node<T>>) returns (b: bool)
    requires Ring(s) && s[0] == head
    ensures b <==> |s| == 2
  {
    b := head.next != head && head.next == head.prev;
  }

  /** list_cut_position: the entries up to `entry` leave for `list`; an empty ring is left alone. */
  method CutPosition<T>(list: Node<T>, head: Node<T>, entry: Node<T>, ghost s: seq<Node<T>>, ghost j: nat)
    requires Ring(s) && s[0] == head && j < |s| && s[j] == entry && list !in s
    modifies s, list
    ensures |s| == 1 ==> list.next == old(list.next) && list.prev == old(list.prev) && Ring(s)
    ensures |s| > 1 ==> Ring([list] + s[1..j + 1]) && Ring([head] + s[j + 1..])
  {
    var empty := Empty(head, s);
    if empty {
      return;
    }
    var singular := Singular(head, s);
    if singular && head.next != entry && head != entry {
      return;
    }
    if entry == head {
      Init(list);
      assert [head] + s[1..] == s;
    } else {
      CutAfter(list, head, entry, s, j);
    }
  }

  /** __list_cut_position. */
  method CutAfter<T>(list: Node<T>, head: Node<T>, entry: Node<T>, ghost s: seq<Node<T>>, ghost j: nat)
    requires Ring(s) && s[0] == head && 1 <= j < |s| && s[j] == entry && list !in s
    modifies s, list
    ensures Ring([list] + s[1..j + 1]) && Ring([head] + s[j + 1..])
  {
    hide Distinct;
    ghost var a, b := [list] + s[1..j + 1], [head] + s[j + 1..];
    DistinctCut(list, s, j);
    OnlyAt(s, 0);
    OnlyAt(s, 1);
    OnlyAt(s, j);
    if j + 1 < |s| { OnlyAt(s, j + 1); }
    var newFirst := entry.next;
    list.next := head.next;
    list.next.prev := list;
    list.prev := entry;
    entry.next := list;
    head.next := newFirst;
    newFirst.prev := head;
    assert Chain(s[1..j + 1]) && Chain(s[j + 1..]);
    JoinChains([list], s[1..j + 1]);
    JoinChains([head], s[j + 1..]);
  }

  lemma DistinctCut<T>(list: Node<T>, s: seq<Node<T>>, j: nat)
    requires Distinct(s) && list !in s && 1 <= j < |s|
    ensures Distinct([list] + s[1..j + 1]) && Distinct([s[0]] + s[j + 1..])
  {
  }

  /** list_splice: the entries of `list` go in front; `list` itself keeps its stale links. */
  method Splice<T>(list: Node<T>, head: Node<T>, ghost l: seq<Node<T>>, ghost s: seq<Node<T>>)
    requires Ring(l) && Ring(s) && l[0] == list && s[0] == head && Distinct(l + s)
    modifies l, s
    ensures Ring([head] + l[1..] + s[1..])
  {
    var empty := Empty(list, l);
    if empty {
      assert [head] + l[1..] + s[1..] == s;
    } else {
      SpliceBetween(list, head, head.next, l, s, 0);
      assert s[..1] + l[1..] + s[1..] == [head] + l[1..] + s[1..];
    }
  }

  /** list_splice_tail: the entries of `list` go to the end. */
  method SpliceTail<T>(list: Node<T>, head: Node<T>, ghost l: seq<Node<T>>, ghost s: seq<Node<T>>)
    requires Ring(l) && Ring(s) && l[0] == list && s[0] == head && Distinct(l + s)
    modifies l, s
    ensures Ring(s + l[1..])
  {
    var empty := Empty(list, l);
    if empty {
      assert s + l[1..] == s;
    } else {
      SpliceBetween(list, head.prev, head, l, s, |s| - 1);
      assert s[..|s|] + l[1..] + s[|s|..] == s + l[1..];
    }
  }

  /** list_splice_init: as list_splice, and `list` is an empty list afterwards. */
  method SpliceInit<T>(list: Node<T>, head: Node<T>, ghost l: seq<Node<T>>, ghost s: seq<Node<T>>)
    requires Ring(l) && Ring(s) && l[0] == list && s[0] == head && Distinct(l + s)
    modifies l, s
    ensures Ring([head] + l[1..] + s[1..]) && Ring([list])
  {
    ListLeft(l, s);
    hide Distinct, Chain;
    Splice(list, head, l, s);
    Init(list);
  }

  /** list_splice_tail_init. */
  method SpliceTailInit<T>(list: Node<T>, head: Node<T>, ghost l: seq<Node<T>>, ghost s: seq<Node<T>>)
    requires Ring(l) && Ring(s) && l[0] == list && s[0] == head && Distinct(l + s)
    modifies l, s
    ensures Ring(s + l[1..]) && Ring([list])
  {
    ListLeft(l, s);
    hide Distinct, Chain;
    SpliceTail(list, head, l, s);
    Init(list);
  }

  lemma ListLeft<T>(l: seq<Node<T>>, s: seq<Node<T>>)
    requires Distinct(l + s) && l != [] && s != []
    ensures l[0] !in [s[0]] + l[1..] + s[1..] && l[0] !in s + l[1..]
  {
    Apart(l, s);
    assert forall p :: 0 <= p < |l| ==> (l + s)[p] == l[p];
    forall x | x in l[1..] ensures x != l[0] {
      var p :| 1 <= p < |l| && l[p] == x;
      assert (l + s)[0] != (l + s)[p];
    }
    assert l[0] in l;
  }

  lemma DistinctSplice<T>(l: seq<Node<T>>, s: seq<Node<T>>, i: nat)
    requires Distinct(l + s) && i < |s| && |l| > 0
    ensures Distinct(l) && Distinct(s)
    ensures forall p, q :: 0 <= p < |l| && 0 <= q < |s| ==> l[p] != s[q]
    ensures Distinct(s[..i + 1] + l[1..] + s[i + 1..])
  {
    forall p, q | 0 <= p < |l| && 0 <= q < |s| ensures l[p] != s[q] {
      assert (l + s)[p] == l[p] && (l + s)[|l| + q] == s[q];
    }
    assert forall p :: 0 <= p < |l| ==> (l + s)[p] == l[p];
    assert forall q :: |l| <= q < |l| + |s| ==> (l + s)[q] == s[q - |l|];
    assert Distinct(s) by {
      forall p, q | 0 <= p < q < |s| ensures s[p] != s[q] {
        assert (l + s)[|l| + p] == s[p] && (l + s)[|l| + q] == s[q];
      }
    }
  }

  /** __list_splice. */
  method SpliceBetween<T>(list: Node<T>, prev: Node<T>, next: Node<T>,
                          ghost l: seq<Node<T>>, ghost s: seq<Node<T>>, ghost i: nat)
    requires Ring(l) && Ring(s) && l[0] == list && |l| > 1 && Distinct(l + s)
    requires i < |s| && prev == s[i] && next == Follower(s, i)
    modifies l, s
    ensures Ring(s[..i + 1] + l[1..] + s[i + 1..])
  {
    hide Distinct;
    DistinctSplice(l, s, i);
    OnlyAt(l, 1);
    OnlyAt(l, |l| - 1);
    OnlyAt(s, i);
    OnlyAt(s, if i + 1 < |s| then i + 1 else 0);
    var first, last := list.next, list.prev;
    first.prev := prev;
    prev.next := first;
    last.next := next;
    next.prev := last;
    ghost var a, m, b := s[..i + 1], l[1..], s[i + 1..];
    assert Chain(a) && Chain(m) && Chain(b);
    JoinChains(a, m);
    JoinChains(a + m, b);
  }

  lemma PartsOfCut<T>(list: Node<T>, s: seq<Node<T>>, j: nat)
    requires Distinct(s) && list !in s && j < |s|
    ensures var l, t := [list] + s[1..j + 1], [s[0]] + s[j + 1..];
            && Distinct(l + t) && [s[0]] + l[1..] + t[1..] == s
            && (forall x :: x in l ==> x == list || x in s) && (forall x :: x in t ==> x in s)
  {
    var l, t := [list] + s[1..j + 1], [s[0]] + s[j + 1..];
    assert forall p :: 1 <= p < |l| ==> (l + t)[p] == s[p];
    assert (l + t)[|l|] == s[0];
    assert forall p :: |l| < p < |l + t| ==> (l + t)[p] == s[p - 1];
  }

  /** Cutting a list anywhere and splicing the front part back restores it. */
  method CutThenSplice<T>(list: Node<T>, head: Node<T>, entry: Node<T>, ghost s: seq<Node<T>>, ghost j: nat)
    requires Ring(s) && |s| > 1 && s[0] == head && j < |s| && s[j] == entry && list !in s
    modifies s, list
    ensures Ring(s)
  {
    hide Distinct, Chain;
    CutPosition(list, head, entry, s, j);
    PartsOfCut(list, s, j);
    Splice(list, head, [list] + s[1..j + 1], [head] + s[j + 1..]);
  }
}
