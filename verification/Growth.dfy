/**
  Adding a path to one playlist: how far the bucket must grow, whether the file
  may grow that far, and what the playlist holds afterwards.
 */
module Growth {
  import opened Bytes
  import opened Strings
  import opened Packing
  import opened Block

  /** The least number of growth rounds after which `len` more string bytes fit. */
  function Need(b: seq<byte>, len: nat): nat
    requires Framed(b)
  {
    var used, limit := BUCKET_STRINGS + StrBytes(b) + len, IndexOffs(b) - 4;
    if used < limit then 0 else (used - limit) / GROWTH_RATE + 1
  }

  /** The number of growth rounds a file of `total` bytes can take before 4 GB. */
  function Room(total: nat): (k: nat)
    requires total < LIMIT32
    ensures total + GROWTH_RATE * k < LIMIT32 <= total + GROWTH_RATE * (k + 1)
  {
    (LIMIT32 - 1 - total) / GROWTH_RATE
  }

  /** After `k` rounds the string fits exactly when `k` is at least the need. */
  lemma NeedIsLeast(b: seq<byte>, len: nat, k: nat)
    requires Framed(b) && |b| + GROWTH_RATE * k < LIMIT32
    ensures Fits(Expanded(b, k), len) <==> Need(b, len) <= k
  {
    hide Framed, Expanded;
    ExpandedKeeps(b, k);
    SameContentsReads(b, Expanded(b, k));
  }

  /** The need is within the room exactly when some number of rounds fits below 4 GB and suffices. */
  lemma NeedMeetsRoom(b: seq<byte>, len: nat, total: nat)
    requires Framed(b) && |b| <= total < LIMIT32
    ensures Need(b, len) <= Room(total) <==>
            exists k: nat :: total + GROWTH_RATE * k < LIMIT32 && Fits(Expanded(b, k), len)
  {
    hide Framed, Expanded, Need;
    forall k: nat | total + GROWTH_RATE * k < LIMIT32
      ensures Framed(Expanded(b, k)) && (Fits(Expanded(b, k), len) <==> Need(b, len) <= k)
    {
      ExpandedKeeps(b, k);
      NeedIsLeast(b, len, k);
    }
    var room := Room(total);
    assert Need(b, len) <= room ==> Fits(Expanded(b, room), len);
    if k: nat :| total + GROWTH_RATE * k < LIMIT32 && Fits(Expanded(b, k), len) {
      assert Need(b, len) <= k <= room;
    }
  }

  datatype Added = Added(block: seq<byte>, ok: bool)

  /** mlib_bucket_add on a bucket of a file of `total` bytes. */
  function BucketAdd(b: seq<byte>, str: Path, total: nat): (r: Added)
    requires Framed(b) && |b| <= total < LIMIT32
  {
    var need, room := Need(b, |str| + 1), Room(total);
    if str in Paths(b) then Added(b, false)
    else if need <= room then
      NeedIsLeast(b, |str| + 1, need);
      Added(AddString(Expanded(b, need), str), true)
    else Added(Expanded(b, room), false)
  }

  lemma {:induction false} InsertMembers(ps: seq<CString>, str: CString)
    ensures forall p :: p in Insert(ps, str, Itself()) <==> p in ps || p == str
  {
    var r := Insert(ps, str, Itself());
    assert forall p :: p in r <==> p in multiset(r);
    assert forall p :: p in ps <==> p in multiset(ps);
  }

  /**
    A path is added exactly when it is new and the file may grow far enough;
    then the paths gain it in its strcmp place. A refusal, even after some
    growth, leaves the name, the count and the paths as they were.
   */
  lemma BucketAddEffect(b: seq<byte>, str: Path, total: nat)
    requires BucketOk(b) && |b| <= total < LIMIT32
    ensures var r := BucketAdd(b, str, total);
            && (r.ok <==> str !in Paths(b) && Need(b, |str| + 1) <= Room(total))
            && BucketOk(r.block) && |b| <= |r.block| && total - |b| + |r.block| < LIMIT32
            && Name(r.block) == Name(b) && MediaCount(r.block) == MediaCount(b)
            && Paths(r.block) == (if r.ok then Insert(Paths(b), str, Itself()) else Paths(b))
  {
    hide Expanded, AddString, Framed, StringsAt, Insert, Strs, Words, Get32, StringAt;
    var need, room := Need(b, |str| + 1), Room(total);
    if str !in Paths(b) {
      var k := if need <= room then need else room;
      var c := Expanded(b, k);
      ExpandedKeeps(b, k);
      SameContentsReads(b, c);
      if need <= room {
        NeedIsLeast(b, |str| + 1, need);
        AddStringPaths(c, str);
        AddStringContents(c, str);
        HeaderReads(c, AddString(c, str));
      }
    }
  }

  lemma HeaderReads(b: seq<byte>, c: seq<byte>)
    requires Framed(b) && Framed(c) && c[PLIST_MCOUNT..BUCKET] == b[PLIST_MCOUNT..BUCKET]
    ensures Name(c) == Name(b) && MediaCount(c) == MediaCount(b)
  {
    SliceOfSlice(b, PLIST_MCOUNT, BUCKET - PLIST_MCOUNT, 0, 4);
    SliceOfSlice(c, PLIST_MCOUNT, BUCKET - PLIST_MCOUNT, 0, 4);
    SliceOfSlice(b, PLIST_MCOUNT, BUCKET - PLIST_MCOUNT, 4, BUCKET - PLIST_MCOUNT);
    SliceOfSlice(c, PLIST_MCOUNT, BUCKET - PLIST_MCOUNT, 4, BUCKET - PLIST_MCOUNT);
  }

  /** The playlist with its element count rewritten. */
  function SetMediaCount(b: seq<byte>, v: nat): (c: seq<byte>)
    requires |b| >= PLIST_STRUCT_SIZE && v < LIMIT32
    ensures |c| == |b|
  {
    Put32(b, PLIST_MCOUNT, v)
  }

  lemma SetMediaCountKeeps(b: seq<byte>, v: nat)
    requires Framed(b) && v < LIMIT32
    ensures var c := SetMediaCount(b, v);
            && Framed(c) && MediaCount(c) == v && Name(c) == Name(b)
            && Strs(c) == Strs(b) && Indexes(c) == Indexes(b) && IndexOffs(c) == IndexOffs(b)
  {
    hide Put32, Value32, StringAt;
    var c := SetMediaCount(b, v);
    forall i, j | 0 <= i <= j <= |b| && (j <= 8 || 12 <= i) ensures c[i..j] == b[i..j] {
      PutKeeps(b, PLIST_MCOUNT, v, i, j);
    }
    assert c[127..128][0] == b[127..128][0];
    var o := BUCKET + IndexOffs(b);
    WordsOfSlice(c, o, b, o, Count(b));
  }

  /** mlib_add_path_to_plist on a playlist of a file of `total` bytes. */
  function AddPath(b: seq<byte>, str: Path, total: nat): (r: Added)
    requires BucketOk(b) && |b| <= total < LIMIT32
  {
    BucketAddEffect(b, str, total);
    var r := BucketAdd(b, str, total);
    if r.ok then Added(SetMediaCount(r.block, (MediaCount(r.block) + 1) % LIMIT32), true) else r
  }

  /** On a well-formed playlist the count follows the paths, and it never wraps. */
  lemma AddPathEffect(b: seq<byte>, str: Path, total: nat)
    requires WellFormed(b) && |b| <= total < LIMIT32
    ensures var r := AddPath(b, str, total);
            && (r.ok <==> str !in Paths(b) && Need(b, |str| + 1) <= Room(total))
            && WellFormed(r.block) && |b| <= |r.block| && total - |b| + |r.block| < LIMIT32
            && Name(r.block) == Name(b)
            && Paths(r.block) == (if r.ok then Insert(Paths(b), str, Itself()) else Paths(b))
  {
    hide BucketAdd, SetMediaCount, StringsAt, Insert, Strs, Words, Get32, StringAt, Packed;
    BucketAddEffect(b, str, total);
    var r := BucketAdd(b, str, total);
    if r.ok {
      assert |Paths(r.block)| == |Paths(b)| + 1;
      assert Count(r.block) == Count(b) + 1;
      SetMediaCountKeeps(r.block, MediaCount(b) + 1);
    } else {
      assert |Paths(r.block)| == |Paths(b)|;
      assert Count(r.block) == Count(b);
    }
  }

  /** How far a playlist grows: by its need, by all the room there is, or not at all. */
  lemma AddPathLength(b: seq<byte>, str: Path, total: nat)
    requires WellFormed(b) && |b| <= total < LIMIT32
    ensures var need, room := Need(b, |str| + 1), Room(total);
            |AddPath(b, str, total).block|
            == |b| + GROWTH_RATE * (if str in Paths(b) then 0 else if need <= room then need else room)
  {
    hide Expanded, AddString, Framed, StringsAt, Insert, Strs, Words, Get32, StringAt, Packed;
    var need, room := Need(b, |str| + 1), Room(total);
    BucketAddEffect(b, str, total);
    if str !in Paths(b) {
      var c := Expanded(b, if need <= room then need else room);
      ExpandedKeeps(b, if need <= room then need else room);
      SameContentsReads(b, c);
      if need <= room {
        NeedIsLeast(b, |str| + 1, need);
        AddStringContents(c, str);
      }
    }
  }
}
