/**
  The registry of shell commands: an intrusive ring kept in strcmp order of names.
 */
module Commands {
  import opened Bytes
  import opened Strings
  import opened ListRing

  datatype Command = Command(name: CString, desc: CString)

  /** The names of the commands behind a sequence of nodes. */
  function Names(s: seq<Node<Command>>): (r: seq<CString>)
    ensures |r| == |s|
  {
    seq(|s|, i requires 0 <= i < |s| => s[i].item.name)
  }

  /** Between two neighbours it lies strictly between, a name is not in an ascending list. */
  lemma NotBetween(ps: seq<CString>, x: CString, i: nat)
    requires Ascending(ps, Itself()) && i <= |ps|
    requires forall j :: 0 <= j < i ==> StrCmp(x, ps[j]) > 0
    requires i < |ps| ==> StrCmp(x, ps[i]) < 0
    ensures x !in ps
  {
    if i < |ps| { Bisect(ps, x, i); }
    forall j | 0 <= j < i ensures ps[j] != x { StrCmpZero(x, ps[j]); }
  }

  /** A node is not in the ring when its name is not listed. */
  lemma NotListed(s: seq<Node<Command>>, node: Node<Command>)
    requires s != [] && node != s[0] && node.item.name !in Names(s[1..])
    ensures node !in s
  {
    forall j | 1 <= j < |s| ensures s[j] != node {
      assert Names(s[1..])[j - 1] == s[j].item.name;
    }
  }

  /** The names behind a node linked before number `i`. */
  lemma NamesBetween(s: seq<Node<Command>>, node: Node<Command>, i: nat)
    requires 1 <= i <= |s|
    ensures var ps := Names(s[1..]);
            Names((s[..i] + [node] + s[i..])[1..]) == ps[..i - 1] + [node.item.name] + ps[i - 1..]
    ensures multiset(s[..i] + [node] + s[i..]) == multiset(s) + multiset{node}
  {
    assert s == s[..i] + s[i..];
  }

  /** What linking a node before number `i` does to the listed names. */
  lemma PlacedNames(s: seq<Node<Command>>, node: Node<Command>, i: nat)
    requires 1 <= i <= |s| && node != s[0] && Ascending(Names(s[1..]), Itself())
    requires forall j :: 0 <= j < i - 1 ==> StrCmp(node.item.name, Names(s[1..])[j]) > 0
    requires i < |s| ==> StrCmp(node.item.name, Names(s[1..])[i - 1]) < 0
    ensures node.item.name !in Names(s[1..]) && node !in s
    ensures var r := s[..i] + [node] + s[i..];
            && Names(r[1..]) == Insert(Names(s[1..]), node.item.name, Itself())
            && Ascending(Names(r[1..]), Itself())
            && multiset(r) == multiset(s) + multiset{node}
            && r[0] == s[0] && (i == |s| ==> r == s + [node])
  {
    hide StrCmp, Ascending, Names, Insert;
    var ps, x := Names(s[1..]), node.item.name;
    NotBetween(ps, x, i - 1);
    NotListed(s, node);
    InsertAt(ps, x, i - 1, Itself());
    NamesBetween(s, node, i);
    InsertAscending(ps, x, Itself());
  }

  lemma OneNodeMore(s: seq<Node<Command>>, node: Node<Command>, t: seq<Node<Command>>)
    requires multiset(t) == multiset(s) + multiset{node}
    ensures forall n :: n in t ==> n in s || n == node
  {
    assert forall n :: n in t ==> n in multiset(t);
  }

  lemma NamesTail(s: seq<Node<Command>>)
    ensures s != [] ==> Names(s)[0] == s[0].item.name && Names(s)[1..] == Names(s[1..])
  {
  }

  class Registry {
    const head: Node<Command>
    ghost var ring: seq<Node<Command>>

    /** The registered names in list order. */
    ghost function Listed(): seq<CString>
      requires ring != []
      reads this
    {
      Names(ring[1..])
    }

    ghost predicate Valid()
      reads this, ring
    {
      Ring(ring) && ring[0] == head && Ascending(Listed(), Itself())
    }

    /** LIST_HEAD. */
    constructor ()
      ensures Valid() && Listed() == [] && fresh(head)
    {
      head := new Node(Command([], []));
      new;
      ring := [head];
    }

    /**
      mlib_command_register: a new name takes its place, a known name is refused. A node
      that is already registered is refused by its own name.
     */
    method Register(node: Node<Command>) returns (ret: int)
      requires Valid() && node != head
      modifies this, ring, node
      ensures Valid()
      ensures ret == if node.item.name in old(Listed()) then -1 else 0
      ensures ret == -1 ==> ring == old(ring)
      ensures ret == 0 ==> Listed() == Insert(old(Listed()), node.item.name, Itself())
      ensures ret == 0 ==> multiset(ring) == multiset(old(ring)) + multiset{node}
    {
      hide StrCmp, Insert, Ascending;
      ghost var i := 0;
      var elem := head.next;
      while elem != head
        invariant 0 <= i < |ring| && ring == old(ring) && Valid() && elem == Follower(ring, i)
        invariant forall j :: 0 <= j < i ==> StrCmp(node.item.name, Listed()[j]) > 0
        decreases |ring| - i
      {
        i := i + 1;
        assert elem == ring[i] && elem.item.name == Listed()[i - 1];
        var cmp := StrCmp(node.item.name, elem.item.name);
        StrCmpZero(node.item.name, elem.item.name);
        if cmp == 0 {
          return -1;
        }
        if cmp < 0 {
          Place(node, elem, i);
          return 0;
        }
        elem := elem.next;
      }
      Place(node, head, |ring|);
      return 0;
    }

    /** Links a node before the command at `i`, or at the end. */
    method Place(node: Node<Command>, before: Node<Command>, ghost i: nat)
      requires Valid() && node != head && 1 <= i <= |ring|
      requires before == if i < |ring| then ring[i] else head
      requires forall j :: 0 <= j < i - 1 ==> StrCmp(node.item.name, Listed()[j]) > 0
      requires i < |ring| ==> StrCmp(node.item.name, Listed()[i - 1]) < 0
      modifies this, ring, node
      ensures Valid() && node.item.name !in old(Listed())
      ensures Listed() == Insert(old(Listed()), node.item.name, Itself())
      ensures multiset(ring) == multiset(old(ring)) + multiset{node}
    {
      hide StrCmp, Insert, Ascending, Names, Ring;
      ghost var s := ring;
      PlacedNames(s, node, i);
      AddTail(node, before, s, if i < |s| then i else 0);
      ring := s[..i] + [node] + s[i..];
    }

    /** Registers one command after another, as mlib_register_builtins does. */
    method RegisterAll(nodes: seq<Node<Command>>)
      requires Valid() && head !in nodes
      modifies this, ring, nodes
      ensures Valid()
      ensures Listed() == Registered(old(Listed()), Names(nodes))
      decreases |nodes|
    {
      hide Insert, Ascending, Distinct, Chain, Names;
      if nodes == [] {
        assert Registered(Listed(), Names([])) == Listed();
        return;
      }
      ghost var was := ring;
      var ret := Register(nodes[0]);
      if ret == 0 { OneNodeMore(was, nodes[0], ring); }
      assert forall i :: 0 <= i < |ring| ==> ring[i] in was || ring[i] == nodes[0];
      NamesTail(nodes);
      RegisterAll(nodes[1..]);
    }

    /** mlib_find_command: the command of that name, or null exactly when there is none. */
    method Find(name: CString) returns (cmd: Node?<Command>)
      requires Valid()
      ensures cmd != null <==> name in Listed()
      ensures cmd != null ==> cmd in ring[1..] && cmd.item.name == name
    {
      hide StrCmp, Ascending;
      ghost var i := 0;
      var elem := head.next;
      while elem != head
        invariant 0 <= i < |ring| && elem == Follower(ring, i)
        invariant forall j :: 0 <= j < i ==> Listed()[j] != name
        decreases |ring| - i
      {
        i := i + 1;
        assert elem == ring[i] == ring[1..][i - 1] && elem.item.name == Listed()[i - 1];
        StrCmpZero(elem.item.name, name);
        if StrCmp(elem.item.name, name) == 0 {
          return elem;
        }
        elem := elem.next;
      }
      return null;
    }
  }

  // ---------- Whole series of registrations ----------

  /** The listed names after registering each name in turn. */
  function Registered(listed: seq<CString>, names: seq<CString>): seq<CString>
    decreases |names|
  {
    if names == [] then listed
    else if names[0] in listed then Registered(listed, names[1..])
    else Registered(Insert(listed, names[0], Itself()), names[1..])
  }

  lemma {:induction false} RegisteredContents(listed: seq<CString>, names: seq<CString>)
    requires Ascending(listed, Itself())
    ensures Ascending(Registered(listed, names), Itself())
    ensures forall x :: x in Registered(listed, names) <==> x in listed || x in names
    decreases |names|
  {
    hide Ascending;
    if names != [] {
      var n, rest := names[0], names[1..];
      assert forall x :: x in names <==> x == n || x in rest;
      if n in listed {
        RegisteredContents(listed, rest);
      } else {
        var more := Insert(listed, n, Itself());
        InsertAscending(listed, n, Itself());
        assert forall x :: x in more <==> x in multiset(more);
        assert forall x :: x in listed <==> x in multiset(listed);
        RegisteredContents(more, rest);
      }
    }
  }

  /** An ascending list holds each of its names once. */
  lemma {:induction false} AscendingOnce(ps: seq<CString>)
    requires Ascending(ps, Itself())
    ensures forall x :: multiset(ps)[x] == if x in ps then 1 else 0
  {
    hide Ascending, StrCmp;
    if ps != [] {
      Tails(ps, Itself());
      AscendingOnce(ps[1..]);
      AscendingHeadOnce(ps);
      forall x ensures multiset(ps)[x] == if x in ps then 1 else 0 {
        OneMore(ps, x);
      }
    }
  }

  lemma OneMore(ps: seq<CString>, x: CString)
    requires ps != []
    ensures multiset(ps)[x] == multiset(ps[1..])[x] + if x == ps[0] then 1 else 0
    ensures x in ps <==> x == ps[0] || x in ps[1..]
  {
    assert ps == [ps[0]] + ps[1..];
  }

  /** The final list depends only on which names were registered, not on order or repetition. */
  lemma OrderDoesNotMatter(names: seq<CString>, others: seq<CString>)
    requires forall x :: x in names <==> x in others
    ensures Registered([], names) == Registered([], others)
  {
    hide Registered, Ascending, Sorted;
    var a, b := Registered([], names), Registered([], others);
    assert Ascending<CString>([], Itself()) by { EmptyAscends(); }
    RegisteredContents([], names);
    RegisteredContents([], others);
    AscendingOnce(a);
    AscendingOnce(b);
    assert multiset(a) == multiset(b);
    AscendingIsSorted(a);
    SortIsUnique<CString>(a, b, Itself());
  }

  lemma EmptyAscends()
    ensures Ascending<CString>([], Itself())
  {
  }

  lemma AscendingIsSorted(ps: seq<CString>)
    requires Ascending(ps, Itself())
    ensures Sorted(ps, Itself())
  {
  }
}
