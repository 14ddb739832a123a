/**
  The library file: a 1024-byte header followed by the playlists, end to end.
 */
module Image {
  import opened Bytes
  import opened Strings
  import opened Packing
  import opened Block

  const HEADER_SIZE: nat := 1024
  const LIB_MAGIC: nat := 0x4d4c_4942
  const LIB_LEN: nat := 8

  // ---------- Sequences of playlists and the bytes they occupy ----------

  function Flat(bs: seq<seq<byte>>): seq<byte> {
    if bs == [] then [] else bs[0] + Flat(bs[1..])
  }

  lemma {:induction false} FlatConcat(a: seq<seq<byte>>, b: seq<seq<byte>>)
    ensures Flat(a + b) == Flat(a) + Flat(b)
  {
    if a == [] {
      assert a + b == b;
    } else {
      assert (a + b)[0] == a[0] && (a + b)[1..] == a[1..] + b;
      FlatConcat(a[1..], b);
    }
  }

  lemma FlatSplit(bs: seq<seq<byte>>, k: nat)
    requires k < |bs|
    ensures Flat(bs) == Flat(bs[..k]) + bs[k] + Flat(bs[k + 1..])
  {
    FlatConcat(bs[..k], bs[k..]);
    assert bs == bs[..k] + bs[k..] && bs[k..][1..] == bs[k + 1..];
  }

  /** The file offset of playlist `k`. */
  function Offset(bs: seq<seq<byte>>, k: nat): nat
    requires k <= |bs|
  {
    HEADER_SIZE + |Flat(bs[..k])|
  }

  /** The length of the file that holds these playlists. */
  function TotalLength(bs: seq<seq<byte>>): nat {
    HEADER_SIZE + |Flat(bs)|
  }

  lemma OffsetNext(bs: seq<seq<byte>>, k: nat)
    requires k < |bs|
    ensures Offset(bs, k + 1) == Offset(bs, k) + |bs[k]| <= TotalLength(bs)
  {
    FlatSplit(bs, k);
    assert bs[..k + 1][..k] == bs[..k] && bs[..k + 1][k] == bs[k] && bs[..k + 1][k + 1..] == [];
    FlatSplit(bs[..k + 1], k);
  }

  /** Replacing one playlist changes the total by the difference of the lengths. */
  lemma ReplaceTotal(bs: seq<seq<byte>>, k: nat, c: seq<byte>)
    requires k < |bs|
    ensures TotalLength(bs[k := c]) == TotalLength(bs) - |bs[k]| + |c|
  {
    FlatSplit(bs, k);
    FlatSplit(bs[k := c], k);
    assert bs[k := c][..k] == bs[..k] && bs[k := c][k + 1..] == bs[k + 1..];
  }

  lemma RemoveTotal(bs: seq<seq<byte>>, k: nat)
    requires k < |bs|
    ensures TotalLength(bs[..k] + bs[k + 1..]) == TotalLength(bs) - |bs[k]|
  {
    FlatSplit(bs, k);
    FlatConcat(bs[..k], bs[k + 1..]);
  }

  lemma AppendTotal(bs: seq<seq<byte>>, c: seq<byte>)
    ensures TotalLength(bs + [c]) == TotalLength(bs) + |c|
  {
    FlatConcat(bs, [c]);
    assert Flat([c]) == c;
  }

  // ---------- Images ----------

  /** `img` is a library file whose length field is right and whose playlists are `bs`. */
  ghost predicate Holds(img: seq<byte>, bs: seq<seq<byte>>) {
    && HEADER_SIZE <= |img| < LIMIT32
    && Get32(img, 0) == LIB_MAGIC
    && Get32(img, LIB_LEN) == |img|
    && img[HEADER_SIZE..] == Flat(bs)
  }

  /**
    The playlists met by hopping from header to header by the length field, as
    the library's own iteration does: it ends at the end of the file, and also
    at an offset without a playlist magic.
   */
  function PlaylistsFrom(img: seq<byte>, o: nat): (bs: seq<seq<byte>>)
    decreases |img| - o
  {
    if o + PLIST_STRUCT_SIZE <= |img|
       && Get32(img, o) == PLIST_MAGIC
       && 0 < Get32(img, o + PLIST_LEN) <= |img| - o
    then
      var e := o + Get32(img, o + PLIST_LEN);
      [img[o..e]] + PlaylistsFrom(img, e)
    else []
  }

  function Playlists(img: seq<byte>): seq<seq<byte>> {
    PlaylistsFrom(img, HEADER_SIZE)
  }

  /** A library file in a state between public operations: playlists tile it exactly. */
  ghost predicate Valid(img: seq<byte>) {
    && Holds(img, Playlists(img))
    && forall k :: 0 <= k < |Playlists(img)| ==> WellFormed(Playlists(img)[k])
  }

  /** Laying framed playlists end to end and hopping over them recovers them. */
  lemma {:induction false} PlaylistsOfFlat(img: seq<byte>, o: nat, bs: seq<seq<byte>>)
    requires o <= |img| && img[o..] == Flat(bs)
    requires forall k :: 0 <= k < |bs| ==> Framed(bs[k])
    ensures PlaylistsFrom(img, o) == bs
    decreases |bs|
  {
    hide Value32, Flat;
    if bs != [] {
      var b := bs[0];
      FlatHead(img, o, bs);
      SliceOfSlice(img, o, |b|, 0, 4);
      SliceOfSlice(img, o, |b|, 4, 8);
      PlaylistsOfFlat(img, o + |b|, bs[1..]);
    } else {
      assert Flat([]) == [] by { FlatEmpty(); }
    }
  }

  lemma FlatEmpty()
    ensures Flat([]) == []
  {
  }

  lemma FlatHead(img: seq<byte>, o: nat, bs: seq<seq<byte>>)
    requires o <= |img| && img[o..] == Flat(bs) && bs != []
    ensures o + |bs[0]| <= |img|
    ensures img[o..o + |bs[0]|] == bs[0] && img[o + |bs[0]|..] == Flat(bs[1..])
  {
    var b := bs[0];
    assert img[o..][..|b|] == b && img[o..][|b|..] == Flat(bs[1..]);
  }

  lemma HoldsPlaylists(img: seq<byte>, bs: seq<seq<byte>>)
    requires Holds(img, bs) && forall k :: 0 <= k < |bs| ==> Framed(bs[k])
    ensures Playlists(img) == bs
  {
    PlaylistsOfFlat(img, HEADER_SIZE, bs);
  }

  /** Bytes of playlist `k` as bytes of the file. */
  lemma ReadPlaylist(img: seq<byte>, bs: seq<seq<byte>>, k: nat, i: nat, j: nat)
    requires Holds(img, bs) && k < |bs| && i <= j <= |bs[k]|
    ensures Offset(bs, k) + |bs[k]| <= |img|
    ensures img[Offset(bs, k) + i..Offset(bs, k) + j] == bs[k][i..j]
  {
    var o := |Flat(bs[..k])|;
    FlatSplit(bs, k);
    assert img[HEADER_SIZE..][o..o + |bs[k]|] == bs[k];
    SliceOfSlice(img, HEADER_SIZE, |img| - HEADER_SIZE, o, o + |bs[k]|);
    SliceOfSlice(img, HEADER_SIZE + o, |bs[k]|, i, j);
  }

  lemma ReadWord(img: seq<byte>, bs: seq<seq<byte>>, k: nat, f: nat)
    requires Holds(img, bs) && k < |bs| && f + 4 <= |bs[k]|
    ensures Offset(bs, k) + |bs[k]| <= |img|
    ensures Get32(img, Offset(bs, k) + f) == Get32(bs[k], f)
  {
    ReadPlaylist(img, bs, k, f, f + 4);
  }

  /** A string of a bucket, read from the file. */
  lemma ReadString(img: seq<byte>, bs: seq<seq<byte>>, k: nat, o: nat)
    requires Holds(img, bs) && k < |bs| && Framed(bs[k])
    requires Terminated(Strs(bs[k])) && o < StrBytes(bs[k])
    ensures StringAt(img, Offset(bs, k) + PLIST_STRUCT_SIZE + o) == StringAt(Strs(bs[k]), o)
  {
    hide Get32, StringAt, Flat;
    var a := Offset(bs, k) + PLIST_STRUCT_SIZE;
    ReadPlaylist(img, bs, k, PLIST_STRUCT_SIZE, PLIST_STRUCT_SIZE + StrBytes(bs[k]));
    assert img[a..a + StrBytes(bs[k])][StrBytes(bs[k]) - 1] == img[a + StrBytes(bs[k]) - 1];
    StringAtWindow(img, a, a + StrBytes(bs[k]), o);
  }

  /** The name of a playlist, read from the file; the terminator is within the field. */
  lemma ReadName(img: seq<byte>, bs: seq<seq<byte>>, k: nat)
    requires Holds(img, bs) && k < |bs| && Framed(bs[k])
    ensures StringAt(img, Offset(bs, k) + PLIST_NAME) == Name(bs[k])
    ensures |Name(bs[k])| < PLIST_NAME_LEN
  {
    var a := Offset(bs, k) + PLIST_NAME;
    ReadPlaylist(img, bs, k, PLIST_NAME, BUCKET);
    assert img[a..a + 116][115] == img[a + 115] && bs[k][12..128][115] == bs[k][127];
    StringAtWindow(img, a, a + 116, 0);
  }

  lemma SpliceConcat(p: seq<byte>, b: seq<byte>, q: seq<byte>, i: nat, j: nat, r: seq<byte>)
    requires i <= j <= |b|
    ensures Splice(p + b + q, |p| + i, |p| + j, r) == p + Splice(b, i, j, r) + q
  {
    var s := p + b + q;
    assert s[..|p| + i] == p + b[..i];
    assert s[|p| + j..] == b[j..] + q;
  }

  /** An edit inside playlist `k` of the file edits that playlist and no other. */
  lemma SplicePlaylist(img: seq<byte>, bs: seq<seq<byte>>, k: nat, i: nat, j: nat, r: seq<byte>)
    requires HEADER_SIZE <= |img| && img[HEADER_SIZE..] == Flat(bs)
    requires k < |bs| && i <= j <= |bs[k]|
    ensures Offset(bs, k) + |bs[k]| <= |img|
    ensures var c := Splice(img, Offset(bs, k) + i, Offset(bs, k) + j, r);
            && c[HEADER_SIZE..] == Flat(bs[k := Splice(bs[k], i, j, r)])
            && c[..HEADER_SIZE] == img[..HEADER_SIZE]
  {
    hide Splice, Flat;
    var ds := bs[k := Splice(bs[k], i, j, r)];
    var h, p, q := img[..HEADER_SIZE], Flat(bs[..k]), Flat(bs[k + 1..]);
    FlatSplit(bs, k);
    FlatSplit(ds, k);
    assert ds[..k] == bs[..k] && ds[k + 1..] == bs[k + 1..];
    assert img == (h + p) + bs[k] + q;
    SpliceConcat(h + p, bs[k], q, i, j, r);
    assert (h + p) + ds[k] + q == h + Flat(ds);
  }

  // ---------- Rebuilding a file around other playlists ----------

  /** The file with the header of `img`, its length field adjusted, and the playlists `bs`. */
  function Rebuild(img: seq<byte>, bs: seq<seq<byte>>): (r: seq<byte>)
    requires HEADER_SIZE <= |img| && TotalLength(bs) < LIMIT32
    ensures |r| == TotalLength(bs)
  {
    Put32(img[..HEADER_SIZE], LIB_LEN, TotalLength(bs)) + Flat(bs)
  }

  lemma RebuildHolds(img: seq<byte>, bs: seq<seq<byte>>)
    requires HEADER_SIZE <= |img| && Get32(img, 0) == LIB_MAGIC && TotalLength(bs) < LIMIT32
    ensures Holds(Rebuild(img, bs), bs)
  {
    hide Splice, Word32, Value32;
    var h, r := img[..HEADER_SIZE], Rebuild(img, bs);
    var g := Put32(h, LIB_LEN, TotalLength(bs));
    PutKeeps(h, LIB_LEN, TotalLength(bs), 0, 4);
    assert r[0..4] == g[0..4] == h[0..4] == img[0..4];
    assert r[LIB_LEN..LIB_LEN + 4] == g[LIB_LEN..LIB_LEN + 4];
  }

  /** The header is kept, but for the length field. */
  lemma RebuildKeepsHeader(img: seq<byte>, bs: seq<seq<byte>>, i: nat, j: nat)
    requires HEADER_SIZE <= |img| && TotalLength(bs) < LIMIT32
    requires i <= j <= HEADER_SIZE && (j <= LIB_LEN || LIB_LEN + 4 <= i)
    ensures Rebuild(img, bs)[i..j] == img[i..j]
  {
    hide Put32, Flat;
    var h := img[..HEADER_SIZE];
    PutKeeps(h, LIB_LEN, TotalLength(bs), i, j);
    assert h[i..j] == img[i..j];
  }

  lemma HoldsTotal(img: seq<byte>, bs: seq<seq<byte>>)
    requires Holds(img, bs)
    ensures HEADER_SIZE <= |img| == TotalLength(bs) < LIMIT32
    ensures img == Rebuild(img, bs)
  {
    IsRebuilt(img, img, bs);
  }

  /** Rewriting the length field twice is rewriting it once. */
  lemma PutTwice(h: seq<byte>, o: nat, v: nat, w: nat)
    requires o + 4 <= |h| && v < LIMIT32 && w < LIMIT32
    ensures Put32(Put32(h, o, v), o, w) == Put32(h, o, w)
  {
  }

  /** Only the last set of playlists matters. */
  lemma RebuildTwice(img: seq<byte>, bs: seq<seq<byte>>, cs: seq<seq<byte>>)
    requires HEADER_SIZE <= |img| && TotalLength(bs) < LIMIT32 && TotalLength(cs) < LIMIT32
    ensures Rebuild(Rebuild(img, bs), cs) == Rebuild(img, cs)
  {
    hide Put32;
    PutTwice(img[..HEADER_SIZE], LIB_LEN, TotalLength(bs), TotalLength(cs));
    assert Rebuild(img, bs)[..HEADER_SIZE] == Put32(img[..HEADER_SIZE], LIB_LEN, TotalLength(bs));
  }

  /** A file that keeps the header apart from its length field is the rebuilt file. */
  lemma IsRebuilt(img: seq<byte>, r: seq<byte>, bs: seq<seq<byte>>)
    requires HEADER_SIZE <= |img| && Holds(r, bs)
    requires r[..LIB_LEN] == img[..LIB_LEN]
    requires r[LIB_LEN + 4..HEADER_SIZE] == img[LIB_LEN + 4..HEADER_SIZE]
    ensures r == Rebuild(img, bs)
  {
    hide Value32, Word32;
    WordOfValue(r[LIB_LEN..LIB_LEN + 4]);
    var h := img[..HEADER_SIZE];
    assert r == r[..LIB_LEN] + r[LIB_LEN..LIB_LEN + 4] + r[LIB_LEN + 4..HEADER_SIZE] + r[HEADER_SIZE..];
    assert h[..LIB_LEN] == r[..LIB_LEN] && h[LIB_LEN + 4..] == r[LIB_LEN + 4..HEADER_SIZE];
  }

  /** An edit of unchanged length inside playlist `k` rebuilds the file around it. */
  lemma EditRebuilds(img: seq<byte>, bs: seq<seq<byte>>, k: nat, i: nat, r: seq<byte>)
    requires Holds(img, bs) && k < |bs| && i + |r| <= |bs[k]|
    ensures Offset(bs, k) + |bs[k]| <= |img|
    ensures var cs := bs[k := Splice(bs[k], i, i + |r|, r)];
            var c := Splice(img, Offset(bs, k) + i, Offset(bs, k) + i + |r|, r);
            && TotalLength(cs) == TotalLength(bs)
            && Holds(c, cs) && c == Rebuild(img, cs)
  {
    hide Splice, Value32, Rebuild;
    SplicePlaylist(img, bs, k, i, i + |r|, r);
    ReplaceTotal(bs, k, Splice(bs[k], i, i + |r|, r));
    var c := Splice(img, Offset(bs, k) + i, Offset(bs, k) + i + |r|, r);
    HeaderSlices(img, c);
    IsRebuilt(img, c, bs[k := Splice(bs[k], i, i + |r|, r)]);
  }

  lemma HeaderSlices(img: seq<byte>, c: seq<byte>)
    requires HEADER_SIZE <= |img| && HEADER_SIZE <= |c| && c[..HEADER_SIZE] == img[..HEADER_SIZE]
    ensures c[0..4] == img[0..4] && c[LIB_LEN..LIB_LEN + 4] == img[LIB_LEN..LIB_LEN + 4]
    ensures c[..LIB_LEN] == img[..LIB_LEN]
    ensures c[LIB_LEN + 4..HEADER_SIZE] == img[LIB_LEN + 4..HEADER_SIZE]
  {
    SliceOfSlice(img, 0, HEADER_SIZE, 0, 4);
    SliceOfSlice(c, 0, HEADER_SIZE, 0, 4);
    SliceOfSlice(img, 0, HEADER_SIZE, LIB_LEN, LIB_LEN + 4);
    SliceOfSlice(c, 0, HEADER_SIZE, LIB_LEN, LIB_LEN + 4);
    SliceOfSlice(img, 0, HEADER_SIZE, LIB_LEN + 4, HEADER_SIZE);
    SliceOfSlice(c, 0, HEADER_SIZE, LIB_LEN + 4, HEADER_SIZE);
    SliceOfSlice(img, 0, HEADER_SIZE, 0, LIB_LEN);
    SliceOfSlice(c, 0, HEADER_SIZE, 0, LIB_LEN);
  }

  /** New contents behind the old header, with the length field patched, is a rebuilt file. */
  lemma PatchedIsRebuilt(img: seq<byte>, c: seq<byte>, bs: seq<seq<byte>>)
    requires HEADER_SIZE <= |img| && HEADER_SIZE <= |c| < LIMIT32
    requires c[..HEADER_SIZE] == img[..HEADER_SIZE] && c[HEADER_SIZE..] == Flat(bs)
    ensures TotalLength(bs) == |c|
    ensures Put32(c, LIB_LEN, |c|) == Rebuild(img, bs)
  {
    assert c == c[..HEADER_SIZE] + c[HEADER_SIZE..];
  }

  /** The file with `n` blank bytes opened at offset `o`. */
  function WithGap(img: seq<byte>, o: nat, n: nat): (r: seq<byte>)
    requires HEADER_SIZE <= o <= |img| && |img| + n < LIMIT32
    ensures |r| == |img| + n
  {
    Put32(Splice(img, o, o, Zeros(n)), LIB_LEN, |img| + n)
  }

  /** The file with the bytes [s, e) cut out. */
  function Without(img: seq<byte>, s: nat, e: nat): (r: seq<byte>)
    requires HEADER_SIZE <= s <= e <= |img| < LIMIT32
    ensures |r| == |img| - (e - s)
  {
    Put32(Splice(img, s, e, []), LIB_LEN, |img| - (e - s))
  }

  /** Cutting out a gap that was just opened restores the file. */
  lemma GapThenCut(img: seq<byte>, o: nat, n: nat)
    requires HEADER_SIZE <= o <= |img| && |img| + n < LIMIT32
    requires Get32(img, LIB_LEN) == |img|
    ensures Without(WithGap(img, o, n), o, o + n) == img
  {
    hide Word32, Value32, Put32, Splice;
    var v, s := |img| + n, Splice(img, o, o, Zeros(n));
    GapFilled(img, o, n);
    PutThenSplice(s, LIB_LEN, v, o, o + n);
    PutTwice(img, LIB_LEN, v, |img|);
    PutSame(img, LIB_LEN);
  }

  lemma GapFilled(img: seq<byte>, o: nat, n: nat)
    requires o <= |img|
    ensures Splice(Splice(img, o, o, Zeros(n)), o, o + n, []) == img
  {
    var s := Splice(img, o, o, Zeros(n));
    assert s[..o] == img[..o] && s[o + n..] == img[o..];
  }

  /** A cut behind an overwritten word may be made first. */
  lemma PutThenSplice(s: seq<byte>, o: nat, v: nat, i: nat, j: nat)
    requires o + 4 <= i <= j <= |s| && v < LIMIT32
    ensures Splice(Put32(s, o, v), i, j, []) == Put32(Splice(s, i, j, []), o, v)
  {
    hide Word32;
    var w, m := Word32(v), s[o + 4..i];
    assert Put32(s, o, v) == s[..o] + w + m + s[i..j] + s[j..];
    assert Splice(s, i, j, []) == s[..o] + s[o..o + 4] + m + s[j..];
    var l, r := Splice(Put32(s, o, v), i, j, []), Put32(Splice(s, i, j, []), o, v);
    assert l == s[..o] + w + m + s[j..];
    assert r == s[..o] + w + m + s[j..];
  }

  lemma PutSame(s: seq<byte>, o: nat)
    requires o + 4 <= |s|
    ensures Put32(s, o, Get32(s, o)) == s
  {
    hide Word32, Value32;
    WordOfValue(s[o..o + 4]);
    assert s == s[..o] + s[o..o + 4] + s[o + 4..];
  }

  /** Opening `n` blank bytes inside playlist `k`. */
  lemma InsertRebuilds(img: seq<byte>, bs: seq<seq<byte>>, k: nat, i: nat, n: nat)
    requires Holds(img, bs) && k < |bs| && i <= |bs[k]| && |img| + n < LIMIT32
    ensures Offset(bs, k) + |bs[k]| <= |img|
    ensures var cs := bs[k := Splice(bs[k], i, i, Zeros(n))];
            var o := Offset(bs, k) + i;
            && TotalLength(cs) == TotalLength(bs) + n
            && WithGap(img, o, n) == Rebuild(img, cs)
  {
    hide Splice, Put32, Rebuild;
    SplicePlaylist(img, bs, k, i, i, Zeros(n));
    var o := Offset(bs, k) + i;
    PatchedIsRebuilt(img, Splice(img, o, o, Zeros(n)), bs[k := Splice(bs[k], i, i, Zeros(n))]);
  }

  /** Growing the file by `n` blank bytes. */
  lemma AppendRebuilds(img: seq<byte>, bs: seq<seq<byte>>, n: nat)
    requires Holds(img, bs) && |img| + n < LIMIT32
    ensures TotalLength(bs + [Zeros(n)]) == |img| + n
    ensures Put32(img + Zeros(n), LIB_LEN, |img| + n) == Rebuild(img, bs + [Zeros(n)])
  {
    hide Put32, Rebuild;
    FlatConcat(bs, [Zeros(n)]);
    assert Flat([Zeros(n)]) == Zeros(n);
    assert (img + Zeros(n))[HEADER_SIZE..] == img[HEADER_SIZE..] + Zeros(n);
    PatchedIsRebuilt(img, img + Zeros(n), bs + [Zeros(n)]);
  }

  /** Closing the hole that playlist `k` leaves. */
  lemma RemoveRebuilds(img: seq<byte>, bs: seq<seq<byte>>, k: nat)
    requires Holds(img, bs) && k < |bs|
    ensures var o := Offset(bs, k);
            && o + |bs[k]| <= |img|
            && TotalLength(bs[..k] + bs[k + 1..]) == |img| - |bs[k]|
            && Without(img, o, o + |bs[k]|) == Rebuild(img, bs[..k] + bs[k + 1..])
  {
    hide Put32, Rebuild, Flat, Get32;
    var o, e := Offset(bs, k), Offset(bs, k) + |bs[k]|;
    FlatSplit(bs, k);
    FlatConcat(bs[..k], bs[k + 1..]);
    var p, q := Flat(bs[..k]), Flat(bs[k + 1..]);
    assert img == img[..HEADER_SIZE] + p + bs[k] + q;
    var c := Splice(img, o, e, []);
    assert c == img[..HEADER_SIZE] + p + q;
    assert c[HEADER_SIZE..] == p + q;
    PatchedIsRebuilt(img, c, bs[..k] + bs[k + 1..]);
  }
}
