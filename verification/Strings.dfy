/**
  NUL-terminated strings in memory, strcmp, and sequences kept in strcmp order.
 */
module Strings {
  import opened Bytes

  /** What a C string argument denotes: its bytes, without the terminator. */
  type CString = s: seq<byte> | forall i :: 0 <= i < |s| ==> s[i] != 0 witness []

  /** A path mlib_bucket_add can count: its length with the terminator fits a uint32_t. */
  type Path = s: CString | |s| + 1 < LIMIT32 witness []

  /** The string a `char *` to offset `o` of `s` denotes. */
  function StringAt(s: seq<byte>, o: nat): (r: CString)
    ensures |r| > 0 ==> o + |r| <= |s|
    decreases |s| - o
  {
    if o >= |s| || s[o] == 0 then [] else [s[o]] + StringAt(s, o + 1)
  }

  /** Every byte before the terminator belongs to the string, and no other does. */
  lemma {:induction false} StringAtBytes(s: seq<byte>, o: nat, n: nat)
    requires o + n < |s| && s[o + n] == 0
    requires forall i :: o <= i < o + n ==> s[i] != 0
    ensures StringAt(s, o) == s[o..o + n]
    decreases n
  {
    if n > 0 {
      StringAtBytes(s, o + 1, n - 1);
      assert s[o..o + n] == [s[o]] + s[o + 1..o + n];
    }
  }

  /** Reading a string that ends inside a window gives the same string in the window. */
  lemma {:induction false} StringAtWindow(s: seq<byte>, a: nat, c: nat, o: nat)
    requires a <= c <= |s| && o < c - a && s[c - 1] == 0
    ensures StringAt(s, a + o) == StringAt(s[a..c], o)
    ensures o + |StringAt(s[a..c], o)| < c - a
    decreases c - a - o
  {
    if s[a + o] != 0 {
      StringAtWindow(s, a, c, o + 1);
    }
  }

  /** strcmp: the difference of the first unsigned chars that differ. */
  function StrCmp(a: CString, b: CString): int {
    if a == [] && b == [] then 0
    else if a == [] then -(b[0] as int)
    else if b == [] then a[0]
    else if a[0] != b[0] then a[0] as int - b[0] as int
    else StrCmp(a[1..], b[1..])
  }

  /** The result is decided by the first position where the strings differ. */
  lemma {:induction false} StrCmpFirstDifference(a: CString, b: CString, i: nat)
    requires i < |a| && i < |b| && a[..i] == b[..i] && a[i] != b[i]
    ensures StrCmp(a, b) == a[i] as int - b[i] as int
  {
    if i > 0 {
      assert a[0] == a[..i][0] && b[0] == b[..i][0];
      assert a[1..][..i - 1] == a[..i][1..] && b[1..][..i - 1] == b[..i][1..];
      StrCmpFirstDifference(a[1..], b[1..], i - 1);
    }
  }

  /** A proper prefix comes first. */
  lemma {:induction false} StrCmpPrefix(a: CString, b: CString)
    requires |a| < |b| && b[..|a|] == a
    ensures StrCmp(a, b) < 0
  {
    if a != [] {
      assert b[1..][..|a| - 1] == a[1..];
      assert b[0] == b[..|a|][0];
      StrCmpPrefix(a[1..], b[1..]);
    }
  }

  /** The part of a string that a comparison of at most `n` characters sees. */
  function Prefix(s: CString, n: nat): CString {
    if |s| <= n then s else s[..n]
  }

  /** strncmp. */
  function StrNCmp(a: CString, b: CString, n: nat): int {
    StrCmp(Prefix(a, n), Prefix(b, n))
  }

  /** A string that ends within the compared characters matches only itself. */
  lemma StrNCmpZero(a: CString, b: CString, n: nat)
    requires |a| < n
    ensures StrNCmp(a, b, n) == 0 <==> a == b
  {
    StrCmpZero(Prefix(a, n), Prefix(b, n));
  }

  lemma {:induction false} StrCmpZero(a: CString, b: CString)
    ensures StrCmp(a, b) == 0 <==> a == b
  {
    if a != [] && b != [] && a[0] == b[0] {
      StrCmpZero(a[1..], b[1..]);
      assert a == [a[0]] + a[1..] && b == [b[0]] + b[1..];
    }
  }

  lemma {:induction false} StrCmpFlip(a: CString, b: CString)
    ensures StrCmp(a, b) == -StrCmp(b, a)
  {
    if a != [] && b != [] && a[0] == b[0] {
      StrCmpFlip(a[1..], b[1..]);
    }
  }

  lemma {:induction false} StrCmpTransitive(a: CString, b: CString, c: CString)
    requires StrCmp(a, b) <= 0 && StrCmp(b, c) <= 0
    ensures StrCmp(a, c) <= 0
    ensures StrCmp(a, b) < 0 || StrCmp(b, c) < 0 ==> StrCmp(a, c) < 0
  {
    if a != [] && b != [] && c != [] && a[0] == b[0] == c[0] {
      StrCmpTransitive(a[1..], b[1..], c[1..]);
    }
  }

  /** Strictly ascending under strcmp of the elements' keys; so no two keys are equal. */
  ghost predicate Ascending<T>(xs: seq<T>, key: T -> CString) {
    forall i, j :: 0 <= i < j < |xs| ==> StrCmp(key(xs[i]), key(xs[j])) < 0
  }

  /** Ascending under strcmp of the elements' keys, equal keys allowed: what qsort establishes. */
  ghost predicate Sorted<T>(xs: seq<T>, key: T -> CString) {
    forall i, j :: 0 <= i < j < |xs| ==> StrCmp(key(xs[i]), key(xs[j])) <= 0
  }

  /** The first `n` elements are sorted, but for element `j`, which may belong further left. */
  ghost predicate SortedBut<T>(xs: seq<T>, n: nat, j: nat, key: T -> CString)
    requires n <= |xs|
  {
    forall p, q :: 0 <= p < q < n && q != j ==> StrCmp(key(xs[p]), key(xs[q])) <= 0
  }

  lemma SortedPrefix<T>(xs: seq<T>, n: nat, key: T -> CString)
    requires n < |xs| && Sorted(xs[..n], key)
    ensures SortedBut(xs, n + 1, n, key)
  {
    forall p, q | 0 <= p < q < n ensures StrCmp(key(xs[p]), key(xs[q])) <= 0 {
      assert xs[..n][p] == xs[p] && xs[..n][q] == xs[q];
    }
  }

  /** One step of moving element `j` left. */
  lemma SwapLeft<T>(xs: seq<T>, n: nat, j: nat, key: T -> CString)
    requires n <= |xs| && 0 < j < n && SortedBut(xs, n, j, key)
    requires StrCmp(key(xs[j - 1]), key(xs[j])) > 0
    ensures var ys := xs[j - 1 := xs[j]][j := xs[j - 1]];
            SortedBut(ys, n, j - 1, key) && multiset(ys) == multiset(xs)
  {
    StrCmpFlip(key(xs[j - 1]), key(xs[j]));
  }

  /** Element `j` has arrived. */
  lemma SwapDone<T>(xs: seq<T>, n: nat, j: nat, key: T -> CString)
    requires n <= |xs| && j < n && SortedBut(xs, n, j, key)
    requires 0 < j ==> StrCmp(key(xs[j - 1]), key(xs[j])) <= 0
    ensures Sorted(xs[..n], key)
  {
    forall p | 0 <= p < j ensures StrCmp(key(xs[p]), key(xs[j])) <= 0 {
      if p < j - 1 { StrCmpTransitive(key(xs[p]), key(xs[j - 1]), key(xs[j])); }
    }
  }

  /** The key of a string is the string itself. */
  function Itself(): CString -> CString {
    (s: CString) => s
  }

  /** The place of `x` is before the first element whose key is larger. */
  function Insert<T>(xs: seq<T>, x: T, key: T -> CString): (r: seq<T>)
    ensures |r| == |xs| + 1
    ensures multiset(r) == multiset(xs) + multiset{x}
  {
    if xs == [] then [x]
    else if StrCmp(key(x), key(xs[0])) < 0 then [x] + xs
    else
      assert xs == [xs[0]] + xs[1..];
      [xs[0]] + Insert(xs[1..], x, key)
  }

  /** Where an insertion lands: after everything not larger, before the first larger. */
  lemma {:induction false} InsertAt<T>(xs: seq<T>, x: T, i: nat, key: T -> CString)
    requires i <= |xs|
    requires forall j :: 0 <= j < i ==> StrCmp(key(x), key(xs[j])) >= 0
    requires i < |xs| ==> StrCmp(key(x), key(xs[i])) < 0
    ensures Insert(xs, x, key) == xs[..i] + [x] + xs[i..]
  {
    hide StrCmp;
    if i == 0 {
      assert xs[..0] + [x] + xs[0..] == [x] + xs;
    } else {
      InsertAt(xs[1..], x, i - 1, key);
      ConsBetween(xs, x, i);
    }
  }

  lemma ConsBetween<T>(xs: seq<T>, x: T, i: nat)
    requires 1 <= i <= |xs|
    ensures [xs[0]] + (xs[1..][..i - 1] + [x] + xs[1..][i - 1..]) == xs[..i] + [x] + xs[i..]
  {
  }

  lemma {:induction false} InsertAscending<T>(xs: seq<T>, x: T, key: T -> CString)
    requires Ascending(xs, key)
    requires forall y :: y in xs ==> key(y) != key(x)
    ensures Ascending(Insert(xs, x, key), key)
  {
    if xs != [] {
      var r := Insert(xs, x, key);
      StrCmpZero(key(x), key(xs[0]));
      StrCmpFlip(key(x), key(xs[0]));
      if StrCmp(key(x), key(xs[0])) < 0 {
        forall j | 0 <= j < |xs| ensures StrCmp(key(x), key(xs[j])) < 0 {
          if j > 0 { StrCmpTransitive(key(x), key(xs[0]), key(xs[j])); }
        }
      } else {
        var t := Insert(xs[1..], x, key);
        InsertAscending(xs[1..], x, key);
        forall j | 0 <= j < |t| ensures StrCmp(key(xs[0]), key(t[j])) < 0 {
          assert t[j] in multiset(t);
          if t[j] != x {
            assert t[j] in multiset(xs[1..]);
            var k :| 0 <= k < |xs[1..]| && xs[1..][k] == t[j];
            assert xs[k + 1] == t[j];
          }
        }
      }
    }
  }

  /** One comparison of a binary search rules out one side. */
  lemma Bisect(ps: seq<CString>, str: CString, mid: nat)
    requires Ascending(ps, Itself()) && mid < |ps|
    ensures StrCmp(str, ps[mid]) > 0 ==> forall i :: 0 <= i <= mid ==> ps[i] != str
    ensures StrCmp(str, ps[mid]) < 0 ==> forall i :: mid <= i < |ps| ==> ps[i] != str
    ensures StrCmp(str, ps[mid]) == 0 ==> ps[mid] == str
  {
    StrCmpZero(str, ps[mid]);
    forall i | 0 <= i < |ps| && ps[i] == str
      ensures i < mid ==> StrCmp(str, ps[mid]) < 0
      ensures mid < i ==> StrCmp(str, ps[mid]) > 0
    {
      StrCmpFlip(str, ps[mid]);
      assert i < mid ==> StrCmp(Itself()(ps[i]), Itself()(ps[mid])) < 0;
      assert mid < i ==> StrCmp(Itself()(ps[mid]), Itself()(ps[i])) < 0;
    }
  }

  lemma Tails<T>(xs: seq<T>, key: T -> CString)
    requires xs != []
    ensures Ascending(xs, key) ==> Ascending(xs[1..], key)
    ensures Sorted(xs, key) ==> Sorted(xs[1..], key)
    ensures multiset(xs[1..]) == multiset(xs) - multiset{xs[0]}
  {
    assert xs == [xs[0]] + xs[1..];
  }

  lemma AscendingHeadOnce(ps: seq<CString>)
    requires Ascending(ps, Itself()) && ps != []
    ensures ps[0] !in ps[1..]
  {
    forall j | 0 <= j < |ps| - 1 ensures ps[1..][j] != ps[0] {
      assert StrCmp(Itself()(ps[0]), Itself()(ps[j + 1])) < 0;
      StrCmpZero(ps[0], ps[j + 1]);
    }
  }

  lemma SameHead<T>(xs: seq<T>, ys: seq<T>, key: T -> CString)
    requires Sorted(xs, key) && Ascending(ys, key)
    requires multiset(xs) == multiset(ys) && xs != []
    ensures ys != [] && xs[0] == ys[0]
  {
    assert xs[0] in multiset(ys);
    var i :| 0 <= i < |ys| && ys[i] == xs[0];
    assert ys[0] in multiset(xs);
    var j :| 0 <= j < |xs| && xs[j] == ys[0];
    StrCmpFlip(key(xs[0]), key(ys[0]));
  }

  lemma SameTail<T>(xs: seq<T>, ys: seq<T>)
    requires multiset(xs) == multiset(ys) && xs != [] && ys != [] && xs[0] == ys[0]
    ensures multiset(xs[1..]) == multiset(ys[1..])
  {
    assert xs == [xs[0]] + xs[1..] && ys == [ys[0]] + ys[1..];
    assert multiset(xs[1..]) == multiset(xs) - multiset{xs[0]};
    assert multiset(ys[1..]) == multiset(ys) - multiset{ys[0]};
  }

  /**
    Sorting is determined: a sorted rearrangement of elements that have a strictly
    ascending arrangement is that arrangement.
   */
  lemma {:induction false} SortIsUnique<T>(xs: seq<T>, ys: seq<T>, key: T -> CString)
    requires Sorted(xs, key) && Ascending(ys, key)
    requires multiset(xs) == multiset(ys)
    ensures xs == ys
    decreases |xs|
  {
    hide Ascending, Sorted, StrCmp;
    if xs != [] {
      SameHead(xs, ys, key);
      SameTail(xs, ys);
      Tails(xs, key);
      Tails(ys, key);
      SortIsUnique(xs[1..], ys[1..], key);
      assert xs == [xs[0]] + xs[1..] && ys == [ys[0]] + ys[1..];
    } else {
      assert |multiset(ys)| == |ys|;
    }
  }
}
