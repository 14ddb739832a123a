/**
  One playlist as it lies in the file: a 128-byte header, then a bucket whose
  packed strings grow forward and whose sorted array of string offsets grows
  backward, then the 16 bytes the bucket length does not cover.
 */
module Block {
  import opened Bytes
  import opened Strings
  import opened Packing

  const PLIST_MAGIC: nat := 0x1020_2010
  const PLIST_LEN: nat := 4
  const PLIST_MCOUNT: nat := 8
  const PLIST_NAME: nat := 12
  const PLIST_NAME_LEN: nat := 116
  const PLIST_STRUCT_SIZE: nat := 144
  const BUCKET: nat := 128
  const BUCKET_MAGIC: nat := 0x1234_4321
  const BUCKET_LEN: nat := 4
  const BUCKET_INDEX_OFFS: nat := 8
  const BUCKET_STR_BYTES: nat := 12
  const BUCKET_STRINGS: nat := 16
  const GROWTH_RATE: nat := 128

  /** The fields of a playlist and of its bucket. */
  function Length(b: seq<byte>): nat requires |b| >= PLIST_STRUCT_SIZE {
    Get32(b, PLIST_LEN)
  }

  function MediaCount(b: seq<byte>): nat requires |b| >= PLIST_STRUCT_SIZE {
    Get32(b, PLIST_MCOUNT)
  }

  function Name(b: seq<byte>): CString requires |b| >= PLIST_STRUCT_SIZE {
    StringAt(b[PLIST_NAME..BUCKET], 0)
  }

  function BucketLength(b: seq<byte>): nat requires |b| >= PLIST_STRUCT_SIZE {
    Get32(b, BUCKET + BUCKET_LEN)
  }

  function IndexOffs(b: seq<byte>): nat requires |b| >= PLIST_STRUCT_SIZE {
    Get32(b, BUCKET + BUCKET_INDEX_OFFS)
  }

  function StrBytes(b: seq<byte>): nat requires |b| >= PLIST_STRUCT_SIZE {
    Get32(b, BUCKET + BUCKET_STR_BYTES)
  }

  /**
    The frame of a playlist: both magics, a playlist length that is the bucket
    length plus 144, and an index array behind at least one free byte.
   */
  ghost predicate Framed(b: seq<byte>) {
    && PLIST_STRUCT_SIZE <= |b| < LIMIT32
    && Get32(b, 0) == PLIST_MAGIC
    && Length(b) == |b| == BucketLength(b) + PLIST_STRUCT_SIZE
    && b[BUCKET - 1] == 0
    && Get32(b, BUCKET) == BUCKET_MAGIC
    && BUCKET_STRINGS + StrBytes(b) < IndexOffs(b) <= BucketLength(b)
    && (BucketLength(b) - IndexOffs(b)) % 4 == 0
  }

  function Count(b: seq<byte>): nat
    requires Framed(b)
  {
    (BucketLength(b) - IndexOffs(b)) / 4
  }

  /** The packed strings, terminators included. */
  function Strs(b: seq<byte>): (s: seq<byte>)
    requires Framed(b)
    ensures |s| == StrBytes(b)
  {
    b[BUCKET + BUCKET_STRINGS..BUCKET + BUCKET_STRINGS + StrBytes(b)]
  }

  function Indexes(b: seq<byte>): (w: seq<nat>)
    requires Framed(b)
    ensures |w| == Count(b)
  {
    Words(b, BUCKET + IndexOffs(b), Count(b))
  }

  /** The paths in index order. */
  function Paths(b: seq<byte>): (r: seq<CString>)
    requires Framed(b)
  {
    StringsAt(Strs(b), Indexes(b))
  }

  /** A playlist whose bucket is consistent but whose mcount may be behind. */
  ghost predicate BucketOk(b: seq<byte>) {
    Framed(b) && Packed(Strs(b), Indexes(b))
  }

  /** What every playlist satisfies between public operations. */
  ghost predicate WellFormed(b: seq<byte>) {
    BucketOk(b) && MediaCount(b) == Count(b)
  }

  /** Two framed playlists that agree in everything a reader can see. */
  ghost predicate SameContents(b: seq<byte>, c: seq<byte>) {
    && Framed(b) && Framed(c)
    && c[PLIST_MCOUNT..BUCKET] == b[PLIST_MCOUNT..BUCKET]
    && Strs(c) == Strs(b)
    && Indexes(c) == Indexes(b)
  }

  lemma SameContentsReads(b: seq<byte>, c: seq<byte>)
    requires SameContents(b, c)
    ensures Name(c) == Name(b) && MediaCount(c) == MediaCount(b) && Paths(c) == Paths(b)
    ensures Count(c) == Count(b) && StrBytes(c) == StrBytes(b)
    ensures BucketOk(b) ==> BucketOk(c)
  {
    var h, k := b[PLIST_MCOUNT..BUCKET], c[PLIST_MCOUNT..BUCKET];
    assert k[..4] == c[PLIST_MCOUNT..PLIST_MCOUNT + 4] && h[..4] == b[PLIST_MCOUNT..PLIST_MCOUNT + 4];
    assert k[4..] == c[PLIST_NAME..BUCKET] && h[4..] == b[PLIST_NAME..BUCKET];
    assert |Strs(c)| == |Strs(b)| && |Indexes(c)| == |Indexes(b)|;
  }

  /** Iterating over the index array yields the paths in strictly ascending order. */
  lemma PathsAscend(b: seq<byte>)
    requires BucketOk(b)
    ensures Ascending(Paths(b), Itself())
  {
    var offs, key := Indexes(b), KeyIn(Strs(b));
    forall i, j | 0 <= i < j < |Paths(b)|
      ensures StrCmp(Itself()(Paths(b)[i]), Itself()(Paths(b)[j])) < 0
    {
      assert StrCmp(key(offs[i]), key(offs[j])) < 0;
    }
  }

  /**
    Searching the sorted index array decides the same question as scanning the packed
    strings from the first byte on.
   */
  lemma SearchIsScan(b: seq<byte>, str: CString)
    requires BucketOk(b)
    ensures str in Paths(b) <==> str in StringsAt(Strs(b), Starts(Strs(b), 0))
    ensures Count(b) == |Starts(Strs(b), 0)|
  {
    hide Get32, Words, StringsAt;
    IndexedArePacked(Strs(b), Indexes(b), str);
    assert |multiset(Indexes(b))| == |multiset(Starts(Strs(b), 0))|;
  }

  // ---------- Expansion ----------

  /** The bytes after `n` blank bytes have been opened before the index array. */
  function Expand(b: seq<byte>, n: nat): (c: seq<byte>)
    requires Framed(b) && |b| + n < LIMIT32
    ensures |c| == |b| + n
  {
    var a := BUCKET + IndexOffs(b);
    var s := Splice(b, a, a, Zeros(n));
    var t := Put32(s, BUCKET + BUCKET_LEN, BucketLength(b) + n);
    var u := Put32(t, BUCKET + BUCKET_INDEX_OFFS, IndexOffs(b) + n);
    Put32(u, PLIST_LEN, Length(b) + n)
  }

  /** Three words overwritten in the header leave every other range alone. */
  lemma HeaderPutsKeep(s: seq<byte>, v: nat, w: nat, x: nat, a: nat, c: nat)
    requires |s| >= PLIST_STRUCT_SIZE && v < LIMIT32 && w < LIMIT32 && x < LIMIT32
    requires a <= c <= |s| && (c <= 4 || 8 <= a)  && (c <= 132 || 140 <= a)
    ensures Put32(Put32(Put32(s, 132, v), 136, w), 4, x)[a..c] == s[a..c]
  {
    hide Splice, Put32, Value32;
    var t := Put32(s, 132, v);
    var u := Put32(t, 136, w);
    PutKeeps(s, 132, v, a, c);
    PutKeeps(t, 136, w, a, c);
    PutKeeps(u, 4, x, a, c);
  }

  lemma HeaderPutsRead(s: seq<byte>, v: nat, w: nat, x: nat)
    requires |s| >= PLIST_STRUCT_SIZE && v < LIMIT32 && w < LIMIT32 && x < LIMIT32
    ensures var c := Put32(Put32(Put32(s, 132, v), 136, w), 4, x);
            Get32(c, 132) == v && Get32(c, 136) == w && Get32(c, 4) == x
  {
    hide Splice, Put32, Value32;
    var t := Put32(s, 132, v);
    var u := Put32(t, 136, w);
    PutKeeps(t, 136, w, 132, 136);
    PutKeeps(u, 4, x, 132, 136);
    PutKeeps(u, 4, x, 136, 140);
  }

  /** A range of the playlist below the index array is where it was. */
  lemma ExpandKeepsFront(b: seq<byte>, n: nat, i: nat, j: nat)
    requires Framed(b) && |b| + n < LIMIT32
    requires i <= j <= BUCKET + IndexOffs(b) && (j <= 4 || 8 <= i)  && (j <= 132 || 140 <= i)
    ensures Expand(b, n)[i..j] == b[i..j]
  {
    hide Splice, Put32, Value32;
    var a := BUCKET + IndexOffs(b);
    var s := Splice(b, a, a, Zeros(n));
    HeaderPutsKeep(s, BucketLength(b) + n, IndexOffs(b) + n, Length(b) + n, i, j);
    SpliceBefore(b, a, a, Zeros(n), i, j);
  }

  /** The index array and the tail have moved up by `n`. */
  lemma ExpandKeepsBack(b: seq<byte>, n: nat, j: nat)
    requires Framed(b) && |b| + n < LIMIT32
    requires BUCKET + IndexOffs(b) <= j <= |b|
    ensures Expand(b, n)[BUCKET + IndexOffs(b) + n..j + n] == b[BUCKET + IndexOffs(b)..j]
  {
    hide Splice, Put32, Value32;
    var a := BUCKET + IndexOffs(b);
    var s := Splice(b, a, a, Zeros(n));
    HeaderPutsKeep(s, BucketLength(b) + n, IndexOffs(b) + n, Length(b) + n, a + n, j + n);
    SpliceAfter(b, a, a, Zeros(n), a, j);
  }

  lemma ExpandFields(b: seq<byte>, n: nat)
    requires Framed(b) && |b| + n < LIMIT32
    ensures var c := Expand(b, n);
            && Framed(c) && StrBytes(c) == StrBytes(b) && Count(c) == Count(b)
            && IndexOffs(c) == IndexOffs(b) + n
  {
    hide Splice, Put32, Value32;
    var a := BUCKET + IndexOffs(b);
    HeaderPutsRead(Splice(b, a, a, Zeros(n)), BucketLength(b) + n, IndexOffs(b) + n, Length(b) + n);
    ExpandKeepsFront(b, n, 0, 4);
    ExpandKeepsFront(b, n, 127, 128);
    ExpandKeepsFront(b, n, 128, 132);
    ExpandKeepsFront(b, n, 140, 144);
    assert Expand(b, n)[127..128][0] == b[127..128][0];
  }

  lemma ExpandKeeps(b: seq<byte>, n: nat)
    requires Framed(b) && |b| + n < LIMIT32
    ensures SameContents(b, Expand(b, n))
    ensures IndexOffs(Expand(b, n)) == IndexOffs(b) + n
  {
    hide Splice, Put32, Value32;
    var a, c := BUCKET + IndexOffs(b), Expand(b, n);
    ExpandFields(b, n);
    ExpandKeepsFront(b, n, 8, 128);
    ExpandKeepsFront(b, n, 144, 144 + StrBytes(b));
    ExpandKeepsBack(b, n, a + 4 * Count(b));
    WordsOfSlice(b, a, c, a + n, Count(b));
  }

  lemma SameContentsTransitive(b: seq<byte>, c: seq<byte>, d: seq<byte>)
    requires SameContents(b, c) && SameContents(c, d)
    ensures SameContents(b, d)
  {
  }

  /** `k` rounds of growth by the growth rate. */
  function Expanded(b: seq<byte>, k: nat): (c: seq<byte>)
    requires Framed(b) && |b| + GROWTH_RATE * k < LIMIT32
    ensures Framed(c) && |c| == |b| + GROWTH_RATE * k
  {
    if k == 0 then b
    else
      var c := Expanded(b, k - 1);
      ExpandFields(c, GROWTH_RATE);
      Expand(c, GROWTH_RATE)
  }

  lemma ExpandedNext(b: seq<byte>, k: nat)
    requires Framed(b) && |b| + GROWTH_RATE * (k + 1) < LIMIT32
    ensures Expanded(b, k + 1) == Expand(Expanded(b, k), GROWTH_RATE)
  {
  }

  /** Growth changes the free space and nothing a reader can see. */
  lemma {:induction false} ExpandedKeeps(b: seq<byte>, k: nat)
    requires Framed(b) && |b| + GROWTH_RATE * k < LIMIT32
    ensures SameContents(b, Expanded(b, k))
    ensures IndexOffs(Expanded(b, k)) == IndexOffs(b) + GROWTH_RATE * k
  {
    hide Words, Get32, Splice, Packed;
    if k > 0 {
      ExpandedKeeps(b, k - 1);
      ExpandKeeps(Expanded(b, k - 1), GROWTH_RATE);
      SameContentsTransitive(b, Expanded(b, k - 1), Expanded(b, k));
    }
  }

  // ---------- Adding a string ----------

  /** The test that lets mlib_bucket_add store `len` more string bytes. */
  predicate Fits(b: seq<byte>, len: nat)
    requires Framed(b)
  {
    BUCKET_STRINGS + StrBytes(b) + len < IndexOffs(b) - 4
  }

  /** The string stored after the others and its offset stored before the others. */
  function Appended(b: seq<byte>, str: CString): (c: seq<byte>)
    requires Framed(b) && Fits(b, |str| + 1)
    ensures |c| == |b|
  {
    var a := PLIST_STRUCT_SIZE + StrBytes(b);
    var s := Splice(b, a, a + |str| + 1, str + [0]);
    var t := Put32(s, BUCKET + IndexOffs(b) - 4, StrBytes(b));
    var u := Put32(t, BUCKET + BUCKET_INDEX_OFFS, IndexOffs(b) - 4);
    Put32(u, BUCKET + BUCKET_STR_BYTES, StrBytes(b) + |str| + 1)
  }

  lemma AppendedKeeps(b: seq<byte>, str: CString, i: nat, j: nat)
    requires Framed(b) && Fits(b, |str| + 1) && i <= j <= |b|
    requires j <= 136 || (144 <= i && j <= 144 + StrBytes(b)) || BUCKET + IndexOffs(b) <= i
    ensures Appended(b, str)[i..j] == b[i..j]
  {
    hide Splice, Put32, Value32;
    var a := PLIST_STRUCT_SIZE + StrBytes(b);
    var s := Splice(b, a, a + |str| + 1, str + [0]);
    var t := Put32(s, BUCKET + IndexOffs(b) - 4, StrBytes(b));
    var u := Put32(t, 136, IndexOffs(b) - 4);
    PutKeeps(u, 140, StrBytes(b) + |str| + 1, i, j);
    PutKeeps(t, 136, IndexOffs(b) - 4, i, j);
    PutKeeps(s, BUCKET + IndexOffs(b) - 4, StrBytes(b), i, j);
    if j <= a {
      SpliceBefore(b, a, a + |str| + 1, str + [0], i, j);
    } else {
      SpliceAfter(b, a, a + |str| + 1, str + [0], i, j);
    }
  }

  lemma AppendedWrites(b: seq<byte>, str: CString)
    requires Framed(b) && Fits(b, |str| + 1)
    ensures var c := Appended(b, str);
            && IndexOffs(c) == IndexOffs(b) - 4
            && StrBytes(c) == StrBytes(b) + |str| + 1
            && Get32(c, BUCKET + IndexOffs(b) - 4) == StrBytes(b)
            && c[144 + StrBytes(b)..144 + StrBytes(b) + |str| + 1] == str + [0]
  {
    hide Splice, Put32, Value32;
    var a, o := PLIST_STRUCT_SIZE + StrBytes(b), BUCKET + IndexOffs(b) - 4;
    var s := Splice(b, a, a + |str| + 1, str + [0]);
    var t := Put32(s, o, StrBytes(b));
    var u := Put32(t, 136, IndexOffs(b) - 4);
    SpliceWithin(b, a, a + |str| + 1, str + [0]);
    PutKeeps(s, o, StrBytes(b), a, a + |str| + 1);
    PutKeeps(t, 136, IndexOffs(b) - 4, a, a + |str| + 1);
    PutKeeps(t, 136, IndexOffs(b) - 4, o, o + 4);
    PutKeeps(u, 140, StrBytes(b) + |str| + 1, a, a + |str| + 1);
    PutKeeps(u, 140, StrBytes(b) + |str| + 1, o, o + 4);
    PutKeeps(u, 140, StrBytes(b) + |str| + 1, 136, 140);
  }

  lemma AppendedFrame(b: seq<byte>, str: CString)
    requires Framed(b) && Fits(b, |str| + 1)
    ensures var c := Appended(b, str);
            && Framed(c) && BucketLength(c) == BucketLength(b)
            && c[PLIST_MCOUNT..BUCKET] == b[PLIST_MCOUNT..BUCKET]
  {
    hide Appended, Put32, Splice, Value32;
    var c := Appended(b, str);
    AppendedWrites(b, str);
    AppendedKeeps(b, str, 0, 4);
    AppendedKeeps(b, str, 4, 8);
    AppendedKeeps(b, str, 8, 128);
    AppendedKeeps(b, str, 127, 128);
    AppendedKeeps(b, str, 128, 132);
    AppendedKeeps(b, str, 132, 136);
    assert c[127..128][0] == b[127..128][0];
  }

  lemma AppendedContents(b: seq<byte>, str: CString)
    requires Framed(b) && Fits(b, |str| + 1)
    ensures var c := Appended(b, str);
            && Framed(c)
            && Strs(c) == Strs(b) + str + [0]
            && Indexes(c) == [StrBytes(b)] + Indexes(b)
  {
    hide Appended, Put32, Splice, Value32;
    var c := Appended(b, str);
    var m, o := 144 + StrBytes(b), BUCKET + IndexOffs(b);
    AppendedFrame(b, str);
    AppendedWrites(b, str);
    AppendedKeeps(b, str, 144, m);
    assert c[144..m + |str| + 1] == c[144..m] + c[m..m + |str| + 1];
    AppendedKeeps(b, str, o, o + 4 * Count(b));
    WordsOfSlice(c, o, b, o, Count(b));
    assert Words(c, o - 4, Count(b) + 1) == [Get32(c, o - 4)] + Words(c, o, Count(b));
  }

  /** The same playlist with the index array rewritten. */
  function Reindexed(b: seq<byte>, offs: seq<nat>): (c: seq<byte>)
    requires Framed(b) && |offs| == Count(b)
    requires forall i :: 0 <= i < |offs| ==> offs[i] < LIMIT32
    ensures |c| == |b|
  {
    Splice(b, BUCKET + IndexOffs(b), BUCKET + BucketLength(b), BytesOf(offs))
  }

  lemma ReindexedContents(b: seq<byte>, offs: seq<nat>)
    requires Framed(b) && |offs| == Count(b)
    requires forall i :: 0 <= i < |offs| ==> offs[i] < LIMIT32
    ensures var c := Reindexed(b, offs);
            && Framed(c) && c[PLIST_MCOUNT..BUCKET] == b[PLIST_MCOUNT..BUCKET]
            && IndexOffs(c) == IndexOffs(b) && Strs(c) == Strs(b) && Indexes(c) == offs
  {
    hide Splice, Value32;
    var c := Reindexed(b, offs);
    var o, e := BUCKET + IndexOffs(b), BUCKET + BucketLength(b);
    forall i, j | 0 <= i <= j <= o ensures c[i..j] == b[i..j] {
      SpliceBefore(b, o, e, BytesOf(offs), i, j);
    }
    assert c[127..128][0] == b[127..128][0];
    SpliceWithin(b, o, e, BytesOf(offs));
    WordsOfSlice(c, o, BytesOf(offs), 0, |offs|);
    WordsOfBytes(offs);
  }

  /** The index array with the offset of a new string in its strcmp place. */
  function NewIndexes(b: seq<byte>, str: CString): (offs: seq<nat>)
    requires Framed(b)
    ensures |offs| == Count(b) + 1
    ensures multiset(offs) == multiset(Indexes(b)) + multiset{StrBytes(b)}
  {
    Insert<nat>(Indexes(b), StrBytes(b), KeyIn(Strs(b) + str + [0]))
  }

  lemma NewIndexesBound(b: seq<byte>, str: CString)
    requires Framed(b)
    ensures forall i :: 0 <= i < |NewIndexes(b, str)| ==> NewIndexes(b, str)[i] < LIMIT32
  {
    var offs := NewIndexes(b, str);
    forall i | 0 <= i < |offs| ensures offs[i] < LIMIT32 {
      assert offs[i] in multiset(offs);
      assert offs[i] in Indexes(b) || offs[i] == StrBytes(b);
    }
  }

  lemma AppendedCount(b: seq<byte>, str: CString)
    requires Framed(b) && Fits(b, |str| + 1)
    ensures Framed(Appended(b, str)) && Count(Appended(b, str)) == Count(b) + 1
  {
    hide Appended;
    AppendedContents(b, str);
    assert |Indexes(Appended(b, str))| == |[StrBytes(b)] + Indexes(b)|;
  }

  /** The playlist after mlib_bucket_add has stored and sorted a new string. */
  function AddString(b: seq<byte>, str: CString): (c: seq<byte>)
    requires Framed(b) && Fits(b, |str| + 1)
    ensures |c| == |b|
  {
    AppendedCount(b, str);
    NewIndexesBound(b, str);
    Reindexed(Appended(b, str), NewIndexes(b, str))
  }

  /** Adding a new string: what changes, what stays, and that the bucket stays sound. */
  lemma AddStringContents(b: seq<byte>, str: CString)
    requires Framed(b) && Fits(b, |str| + 1)
    ensures var c := AddString(b, str);
            && Framed(c) && c[PLIST_MCOUNT..BUCKET] == b[PLIST_MCOUNT..BUCKET]
            && IndexOffs(c) == IndexOffs(b) - 4
            && Strs(c) == Strs(b) + str + [0]
            && Indexes(c) == NewIndexes(b, str)
  {
    hide Appended, Reindexed, Value32, NewIndexes;
    AppendedCount(b, str);
    NewIndexesBound(b, str);
    AppendedFrame(b, str);
    AppendedContents(b, str);
    AppendedWrites(b, str);
    ReindexedContents(Appended(b, str), NewIndexes(b, str));
  }

  /** On paths, adding a string is sorted insertion. */
  lemma AddStringPaths(b: seq<byte>, str: CString)
    requires BucketOk(b) && Fits(b, |str| + 1) && str !in Paths(b)
    ensures BucketOk(AddString(b, str))
    ensures Paths(AddString(b, str)) == Insert(Paths(b), str, Itself())
  {
    hide AddString, Packed, Insert, StringsAt, Strs, Words, Splice, Get32, StringAt;
    var t := Strs(b) + str + [0];
    AddStringContents(b, str);
    PackedInsert(Strs(b), Indexes(b), str);
    AppendKeepsStrings(Strs(b), Indexes(b), str);
    AppendedString(Strs(b), str);
    InsertStrings(t, Indexes(b), StrBytes(b));
  }

  /** Before the sort: the new offset is in front and every offset points into the strings. */
  lemma AppendedSortable(b: seq<byte>, str: CString)
    requires BucketOk(b) && Fits(b, |str| + 1)
    ensures var c := Appended(b, str);
            && Framed(c) && Terminated(Strs(c))
            && forall i :: 0 <= i < Count(c) ==> Indexes(c)[i] < StrBytes(c)
  {
    hide Appended, Value32, Words, Framed;
    AppendedContents(b, str);
    AppendedWrites(b, str);
    PackedInRange(Strs(b), Indexes(b));
    assert |Indexes(Appended(b, str))| == Count(b) + 1;
  }

  /** Sorting the array with the new offset in front puts that offset in its place. */
  lemma SortedIsNew(b: seq<byte>, str: CString, offs: seq<nat>)
    requires BucketOk(b) && Fits(b, |str| + 1) && str !in Paths(b)
    requires Framed(Appended(b, str)) && multiset(offs) == multiset(Indexes(Appended(b, str)))
    requires Sorted(offs, KeyIn(Strs(Appended(b, str))))
    ensures offs == NewIndexes(b, str)
  {
    hide Appended, Get32, Words, Ascending, Sorted, StringAt, StringsAt;
    AppendedContents(b, str);
    PackedInsert(Strs(b), Indexes(b), str);
    assert multiset([StrBytes(b)] + Indexes(b)) == multiset(Indexes(b)) + multiset{StrBytes(b)};
    SortIsUnique<nat>(offs, NewIndexes(b, str), KeyIn(Strs(b) + str + [0]));
  }
}
