/**
  The two arrays inside a bucket, seen as bytes: an array of big-endian words,
  and strings packed one after another with their terminators.
 */
module Packing {
  import opened Bytes
  import opened Strings

  // ---------- Words ----------

  /** The `n` words stored from offset `o` on. */
  function Words(s: seq<byte>, o: nat, n: nat): (w: seq<nat>)
    requires o + 4 * n <= |s|
    ensures |w| == n
  {
    seq(n, i requires 0 <= i < n => Get32(s, o + 4 * i))
  }

  /** The bytes of an array of words. */
  function BytesOf(w: seq<nat>): (s: seq<byte>)
    requires forall i :: 0 <= i < |w| ==> w[i] < LIMIT32
    ensures |s| == 4 * |w|
  {
    if w == [] then [] else Word32(w[0]) + BytesOf(w[1..])
  }

  lemma SliceOfSlice(s: seq<byte>, o: nat, n: nat, a: nat, c: nat)
    requires o + n <= |s| && a <= c <= n
    ensures s[o..o + n][a..c] == s[o + a..o + c]
  {
    var w := s[o..o + n];
    assert forall i :: a <= i < c ==> w[i] == s[o + i];
    assert forall i :: 0 <= i < c - a ==> w[a..c][i] == s[o + a..o + c][i];
  }

  /** Words depend only on the bytes they occupy. */
  lemma WordsOfSlice(s: seq<byte>, o: nat, t: seq<byte>, p: nat, n: nat)
    requires o + 4 * n <= |s| && p + 4 * n <= |t|
    requires s[o..o + 4 * n] == t[p..p + 4 * n]
    ensures Words(s, o, n) == Words(t, p, n)
  {
    forall i | 0 <= i < n ensures Get32(s, o + 4 * i) == Get32(t, p + 4 * i) {
      var a, c := 4 * i, 4 * i + 4;
      SliceOfSlice(s, o, 4 * n, a, c);
      SliceOfSlice(t, p, 4 * n, a, c);
    }
  }

  /** Overwriting one word of an array of words. */
  lemma PutWord(s: seq<byte>, o: nat, n: nat, j: nat, v: nat)
    requires o + 4 * n <= |s| && j < n && v < LIMIT32
    ensures Words(Put32(s, o + 4 * j, v), o, n) == Words(s, o, n)[j := v]
  {
    hide Value32, Put32;
    forall i | 0 <= i < n && i != j
      ensures Get32(Put32(s, o + 4 * j, v), o + 4 * i) == Get32(s, o + 4 * i)
    {
      PutKeeps(s, o + 4 * j, v, o + 4 * i, o + 4 * i + 4);
    }
  }

  /** Storing the words a range holds reproduces the range. */
  lemma {:induction false} BytesOfWords(s: seq<byte>, o: nat, n: nat)
    requires o + 4 * n <= |s|
    ensures BytesOf(Words(s, o, n)) == s[o..o + 4 * n]
    decreases n
  {
    if n > 0 {
      WordOfValue(s[o..o + 4]);
      BytesOfWords(s, o + 4, n - 1);
      assert Words(s, o, n)[1..] == Words(s, o + 4, n - 1);
      assert s[o..o + 4 * n] == s[o..o + 4] + s[o + 4..o + 4 + 4 * (n - 1)];
    }
  }

  /** Words read back as they were stored. */
  lemma {:induction false} WordsOfBytes(w: seq<nat>)
    requires forall i :: 0 <= i < |w| ==> w[i] < LIMIT32
    ensures Words(BytesOf(w), 0, |w|) == w
  {
    if w != [] {
      var s := BytesOf(w);
      WordsOfBytes(w[1..]);
      assert s[0..4] == Word32(w[0]);
      WordsOfSlice(s, 4, BytesOf(w[1..]), 0, |w| - 1);
      assert Words(s, 0, |w|) == [Get32(s, 0)] + Words(s, 4, |w| - 1);
    }
  }

  // ---------- Packed strings ----------

  ghost predicate Terminated(s: seq<byte>) {
    s == [] || s[|s| - 1] == 0
  }

  /** The start offsets met by walking the packed strings from offset `o`. */
  function Starts(s: seq<byte>, o: nat): (r: seq<nat>)
    ensures forall i :: 0 <= i < |r| ==> o <= r[i] < |s|
    decreases |s| - o
  {
    if o >= |s| then [] else [o] + Starts(s, o + |StringAt(s, o)| + 1)
  }

  /** The key by which an offset is ordered: the string it points to. */
  function KeyIn(s: seq<byte>): nat -> CString {
    (o: nat) => StringAt(s, o)
  }

  function StringsAt(s: seq<byte>, offs: seq<nat>): (r: seq<CString>)
    ensures |r| == |offs|
  {
    seq(|offs|, i requires 0 <= i < |offs| => StringAt(s, offs[i]))
  }

  /**
    The bytes split exactly into NUL-terminated strings, and the index array is
    a permutation of their start offsets, strictly ascending under strcmp.
   */
  ghost predicate Packed(s: seq<byte>, offs: seq<nat>) {
    && Terminated(s)
    && multiset(offs) == multiset(Starts(s, 0))
    && Ascending(offs, KeyIn(s))
  }

  lemma PackedInRange(s: seq<byte>, offs: seq<nat>)
    requires Packed(s, offs)
    ensures forall i :: 0 <= i < |offs| ==> offs[i] < |s|
  {
    forall i | 0 <= i < |offs| ensures offs[i] < |s| {
      assert offs[i] in multiset(offs);
      assert offs[i] in Starts(s, 0);
    }
  }

  /** Appending a string leaves the earlier strings as they were. */
  lemma {:induction false} AppendKeepsString(s: seq<byte>, str: CString, o: nat)
    requires Terminated(s) && o < |s|
    ensures StringAt(s + str + [0], o) == StringAt(s, o)
    ensures o + |StringAt(s, o)| < |s|
  {
    var t := s + str + [0];
    assert t[0..|s|] == s;
    StringAtWindow(t, 0, |s|, o);
  }

  lemma AppendedString(s: seq<byte>, str: CString)
    ensures StringAt(s + str + [0], |s|) == str
  {
    var t := s + str + [0];
    StringAtBytes(t, |s|, |str|);
    assert t[|s|..|s| + |str|] == str;
  }

  /** Appending a string appends its start offset to the walk. */
  lemma {:induction false} AppendStarts(s: seq<byte>, str: CString, o: nat)
    requires Terminated(s) && o <= |s|
    ensures Starts(s + str + [0], o) == Starts(s, o) + [|s|]
    decreases |s| - o
  {
    var t := s + str + [0];
    if o == |s| {
      AppendedString(s, str);
      assert Starts(t, |t|) == [];
    } else {
      AppendKeepsString(s, str, o);
      AppendStarts(s, str, o + |StringAt(s, o)| + 1);
    }
  }

  /** Appending a new string and inserting its offset in order keeps the bucket packed. */
  lemma PackedInsert(s: seq<byte>, offs: seq<nat>, str: CString)
    requires Packed(s, offs) && str !in StringsAt(s, offs)
    ensures var t := s + str + [0];
            Packed(t, Insert<nat>(offs, |s|, KeyIn(t)))
  {
    var t := s + str + [0];
    PackedInRange(s, offs);
    AppendStarts(s, str, 0);
    AppendedString(s, str);
    forall i | 0 <= i < |offs|
      ensures StringAt(t, offs[i]) == StringAt(s, offs[i]) == StringsAt(s, offs)[i]
    {
      AppendKeepsString(s, str, offs[i]);
    }
    assert Ascending(offs, KeyIn(t)) by {
      assert Ascending(offs, KeyIn(s));
      forall i, j | 0 <= i < j < |offs| ensures StrCmp(KeyIn(t)(offs[i]), KeyIn(t)(offs[j])) < 0 {
        assert StrCmp(KeyIn(s)(offs[i]), KeyIn(s)(offs[j])) < 0;
      }
    }
    forall y | y in offs ensures KeyIn(t)(y) != KeyIn(t)(|s|) {
      var i :| 0 <= i < |offs| && offs[i] == y;
      assert StringsAt(s, offs)[i] != str;
    }
    InsertAscending<nat>(offs, |s|, KeyIn(t));
  }

  /** The strings indexed before an append are the strings indexed after it. */
  lemma AppendKeepsStrings(s: seq<byte>, offs: seq<nat>, str: CString)
    requires Packed(s, offs)
    ensures StringsAt(s + str + [0], offs) == StringsAt(s, offs)
  {
    PackedInRange(s, offs);
    forall i | 0 <= i < |offs|
      ensures StringAt(s + str + [0], offs[i]) == StringAt(s, offs[i])
    {
      AppendKeepsString(s, str, offs[i]);
    }
  }

  lemma StringsAtCons(t: seq<byte>, o: nat, offs: seq<nat>)
    ensures StringsAt(t, [o] + offs) == [StringAt(t, o)] + StringsAt(t, offs)
  {
  }

  /** Inserting an offset in key order inserts its string in strcmp order. */
  lemma {:induction false} InsertStrings(t: seq<byte>, offs: seq<nat>, x: nat)
    ensures StringsAt(t, Insert<nat>(offs, x, KeyIn(t)))
         == Insert(StringsAt(t, offs), StringAt(t, x), Itself())
  {
    hide StringsAt, StringAt, StrCmp;
    if offs == [] {
      StringsAtCons(t, x, []);
      assert [x] + [] == [x] && StringsAt(t, []) == [];
    } else {
      var o, rest := offs[0], offs[1..];
      assert offs == [o] + rest;
      StringsAtCons(t, o, rest);
      StringsAtCons(t, x, offs);
      StringsAtCons(t, o, Insert<nat>(rest, x, KeyIn(t)));
      InsertStrings(t, rest, x);
    }
  }

  /** The walk visits exactly the offsets that begin a string: 0, and those after a terminator. */
  lemma {:induction false} StartsExactly(s: seq<byte>, o: nat, p: nat)
    requires Terminated(s) && o <= |s| && (o == 0 || s[o - 1] == 0)
    ensures p in Starts(s, o) <==> o <= p < |s| && (p == 0 || s[p - 1] == 0)
    decreases |s| - o
  {
    if o < |s| {
      var n := |StringAt(s, o)|;
      assert s[0..|s|] == s;
      StringAtWindow(s, 0, |s|, o);
      StringEnd(s, o);
      StartsExactly(s, o + n + 1, p);
    }
  }

  /** A string stops at the first terminator. */
  lemma {:induction false} StringEnd(s: seq<byte>, o: nat)
    requires o + |StringAt(s, o)| < |s|
    ensures s[o + |StringAt(s, o)|] == 0
    ensures forall i :: o <= i < o + |StringAt(s, o)| ==> s[i] != 0
    decreases |s| - o
  {
    if s[o] != 0 {
      StringEnd(s, o + 1);
    }
  }

  /** The strings the index array reaches are the strings a walk over the bytes meets. */
  lemma IndexedArePacked(s: seq<byte>, offs: seq<nat>, str: CString)
    requires Packed(s, offs)
    ensures str in StringsAt(s, offs) <==> str in StringsAt(s, Starts(s, 0))
  {
    hide StringAt;
    var all := Starts(s, 0);
    if str in StringsAt(s, offs) {
      var i :| 0 <= i < |offs| && StringsAt(s, offs)[i] == str;
      assert offs[i] in multiset(all);
      var j :| 0 <= j < |all| && all[j] == offs[i];
      assert StringsAt(s, all)[j] == str;
    }
    if str in StringsAt(s, all) {
      var j :| 0 <= j < |all| && StringsAt(s, all)[j] == str;
      assert all[j] in multiset(offs);
      var i :| 0 <= i < |offs| && offs[i] == all[j];
      assert StringsAt(s, offs)[i] == str;
    }
  }
}
