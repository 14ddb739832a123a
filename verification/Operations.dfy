/**
  The public operations as functions on the sequence of playlists of a file.
  Each result says how the C function returned: `ok` is a return value of 0.
 */
module Operations {
  import opened Bytes
  import opened Strings
  import opened Packing
  import opened Block
  import opened Growth
  import opened Image

  /** The name ".global". */
  const GLOBAL: CString := [0x2e, 0x67, 0x6c, 0x6f, 0x62, 0x61, 0x6c]

  const FRESH_SIZE: nat := PLIST_STRUCT_SIZE + GROWTH_RATE

  datatype Result = Result(bs: seq<seq<byte>>, ok: bool)

  /** The playlists of a valid file of less than 4 GB. */
  ghost predicate Sound(bs: seq<seq<byte>>) {
    TotalLength(bs) < LIMIT32 && forall k :: 0 <= k < |bs| ==> WellFormed(bs[k])
  }

  // ---------- Finding a playlist ----------

  /** The first playlist of that name. */
  function Find(bs: seq<seq<byte>>, name: CString): (r: Option<nat>)
    requires forall k :: 0 <= k < |bs| ==> PLIST_STRUCT_SIZE <= |bs[k]|
    ensures r.Some? ==> r.value < |bs| && Name(bs[r.value]) == name
    ensures r.Some? ==> forall j :: 0 <= j < r.value ==> Name(bs[j]) != name
    ensures r.None? ==> forall j :: 0 <= j < |bs| ==> Name(bs[j]) != name
  {
    if bs == [] then None
    else if Name(bs[0]) == name then Some(0)
    else
      match Find(bs[1..], name)
      case None => None
      case Some(k) => Some(k + 1)
  }

  // ---------- Starting a playlist ----------

  /** What is stored of a playlist name: at most 115 bytes of it. */
  function Stored(name: CString): (s: CString)
    ensures s <= name
    ensures |s| == if |name| < PLIST_NAME_LEN then |name| else PLIST_NAME_LEN - 1
    ensures |name| < PLIST_NAME_LEN ==> s == name
  {
    Prefix(name, PLIST_NAME_LEN - 1)
  }

  /** The 272 bytes of a playlist without paths. */
  function FreshPlaylist(name: CString): (b: seq<byte>)
    ensures |b| == FRESH_SIZE
  {
    Word32(PLIST_MAGIC) + Word32(FRESH_SIZE) + Word32(0)
    + Stored(name) + Zeros(PLIST_NAME_LEN - |Stored(name)|)
    + Word32(BUCKET_MAGIC) + Word32(GROWTH_RATE) + Word32(GROWTH_RATE) + Word32(0)
    + Zeros(GROWTH_RATE)
  }

  lemma FreshPlaylistSlices(name: CString)
    ensures var b := FreshPlaylist(name);
            && b[0..4] == Word32(PLIST_MAGIC) && b[4..8] == Word32(FRESH_SIZE) && b[8..12] == Word32(0)
            && b[12..128] == Stored(name) + Zeros(PLIST_NAME_LEN - |Stored(name)|)
            && b[128..132] == Word32(BUCKET_MAGIC) && b[132..136] == Word32(GROWTH_RATE)
            && b[136..140] == Word32(GROWTH_RATE) && b[140..144] == Word32(0)
            && b[144..272] == Zeros(GROWTH_RATE)
  {
    hide Word32, Zeros, Stored;
    var n := Stored(name) + Zeros(PLIST_NAME_LEN - |Stored(name)|);
    assert |n| == 116;
    assert FreshPlaylist(name)
        == Word32(PLIST_MAGIC) + Word32(FRESH_SIZE) + Word32(0) + n
         + Word32(BUCKET_MAGIC) + Word32(GROWTH_RATE) + Word32(GROWTH_RATE) + Word32(0)
         + Zeros(GROWTH_RATE);
  }

  /** A fresh playlist is well formed, bears the stored name and has no paths. */
  lemma FreshPlaylistContents(name: CString)
    ensures var b := FreshPlaylist(name);
            && WellFormed(b) && Name(b) == Stored(name) && Paths(b) == []
            && StrBytes(b) == 0 && IndexOffs(b) == GROWTH_RATE && Count(b) == 0
  {
    hide FreshPlaylist, Word32, Stored;
    var b := FreshPlaylist(name);
    FreshPlaylistSlices(name);
    var w := b[12..128];
    assert w[115] == 0 && b[127] == w[115];
    StringAtBytes(w, 0, |Stored(name)|);
    assert w[0..|Stored(name)|] == Stored(name);
    assert Strs(b) == [];
    assert Starts([], 0) == [];
  }

  /** The bytes strncpy writes: the string cut to `n` bytes, or padded with zeros to `n`. */
  function Padded(name: CString, n: nat): (s: seq<byte>)
    ensures |s| == n
  {
    Prefix(name, n) + Zeros(n - |Prefix(name, n)|)
  }

  /** The stores of mlib_start_playlist and mlib_init_bucket into blank space. */
  function WrittenPlaylist(name: CString): seq<byte> {
    var a := Splice(Zeros(FRESH_SIZE), PLIST_NAME, BUCKET, Zeros(PLIST_NAME_LEN));
    var b := Splice(a, PLIST_NAME, BUCKET - 1, Padded(name, PLIST_NAME_LEN - 1));
    var c := Put32(Put32(Put32(b, 0, PLIST_MAGIC), PLIST_LEN, FRESH_SIZE), PLIST_MCOUNT, 0);
    InitBucketBytes(c, BUCKET, GROWTH_RATE)
  }

  /** The stores of mlib_init_bucket. */
  function InitBucketBytes(s: seq<byte>, o: nat, size: nat): (t: seq<byte>)
    requires o + BUCKET_STRINGS <= |s| && size < LIMIT32
    ensures |t| == |s|
  {
    Put32(Put32(Put32(Put32(s, o, BUCKET_MAGIC), o + BUCKET_LEN, size),
                o + BUCKET_INDEX_OFFS, size), o + BUCKET_STR_BYTES, 0)
  }

  lemma PutBetween(p: seq<byte>, w: seq<byte>, q: seq<byte>, v: nat)
    requires |w| == 4 && v < LIMIT32
    ensures Put32(p + w + q, |p|, v) == p + Word32(v) + q
  {
    var s := p + w + q;
    assert s[..|p|] == p && s[|p| + 4..] == q;
  }

  lemma BlankPutBetween(p: seq<byte>, n: nat, q: seq<byte>, v: nat)
    requires 4 <= n && v < LIMIT32
    ensures Put32(p + Zeros(n) + q, |p|, v) == (p + Word32(v)) + Zeros(n - 4) + q
  {
    hide Put32, Word32;
    assert Zeros(n) == Zeros(4) + Zeros(n - 4);
    assert p + Zeros(n) + q == p + Zeros(4) + (Zeros(n - 4) + q);
    PutBetween(p, Zeros(4), Zeros(n - 4) + q, v);
    assert p + Word32(v) + (Zeros(n - 4) + q) == (p + Word32(v)) + Zeros(n - 4) + q;
  }

  lemma WrittenName(name: CString)
    ensures var a := Splice(Zeros(FRESH_SIZE), PLIST_NAME, BUCKET, Zeros(PLIST_NAME_LEN));
            Splice(a, PLIST_NAME, BUCKET - 1, Padded(name, PLIST_NAME_LEN - 1))
            == Zeros(12) + (Stored(name) + Zeros(PLIST_NAME_LEN - |Stored(name)|) + Zeros(144))
  {
  }

  lemma WrittenHeader(q: seq<byte>)
    ensures Put32(Put32(Put32(Zeros(12) + q, 0, PLIST_MAGIC), PLIST_LEN, FRESH_SIZE), PLIST_MCOUNT, 0)
         == Word32(PLIST_MAGIC) + Word32(FRESH_SIZE) + Word32(0) + q
  {
    hide Put32, Word32;
    var a, b, c := Word32(PLIST_MAGIC), Word32(FRESH_SIZE), Word32(0);
    assert [] + Zeros(12) + q == Zeros(12) + q;
    BlankPutBetween([], 12, q, PLIST_MAGIC);
    BlankPutBetween([] + a, 8, q, FRESH_SIZE);
    BlankPutBetween([] + a + b, 4, q, 0);
    assert [] + a + b + c + Zeros(0) + q == a + b + c + q;
  }

  lemma WrittenBucket(h: seq<byte>)
    requires |h| == BUCKET
    ensures InitBucketBytes(h + Zeros(144), BUCKET, GROWTH_RATE)
         == h + Word32(BUCKET_MAGIC) + Word32(GROWTH_RATE) + Word32(GROWTH_RATE) + Word32(0) + Zeros(128)
  {
    hide Put32, Word32;
    var a, b := Word32(BUCKET_MAGIC), Word32(GROWTH_RATE);
    assert h + Zeros(144) + [] == h + Zeros(144);
    BlankPutBetween(h, 144, [], BUCKET_MAGIC);
    BlankPutBetween(h + a, 140, [], GROWTH_RATE);
    BlankPutBetween(h + a + b, 136, [], GROWTH_RATE);
    BlankPutBetween(h + a + b + b, 132, [], 0);
    assert h + a + b + b + Word32(0) + Zeros(128) + [] == h + a + b + b + Word32(0) + Zeros(128);
  }

  /** The stores into blank space leave exactly the bytes of a fresh playlist. */
  lemma WrittenIsFresh(name: CString)
    ensures WrittenPlaylist(name) == FreshPlaylist(name)
  {
    hide Put32, Word32, Splice, Stored, Padded, InitBucketBytes;
    var n := Stored(name) + Zeros(PLIST_NAME_LEN - |Stored(name)|);
    var h := Word32(PLIST_MAGIC) + Word32(FRESH_SIZE) + Word32(0);
    WrittenName(name);
    WrittenHeader(n + Zeros(144));
    assert h + (n + Zeros(144)) == (h + n) + Zeros(144);
    WrittenBucket(h + n);
    assert h + n == h + Stored(name) + Zeros(PLIST_NAME_LEN - |Stored(name)|);
  }

  /** mlib_start_playlist. */
  function Start(bs: seq<seq<byte>>, name: CString): (r: Result)
    requires Sound(bs)
  {
    if Find(bs, name).Some? then Result(bs, false)
    else if TotalLength(bs) + FRESH_SIZE >= LIMIT32 then Result(bs, false)
    else Result(bs + [FreshPlaylist(name)], true)
  }

  lemma StartSound(bs: seq<seq<byte>>, name: CString)
    requires Sound(bs)
    ensures Sound(Start(bs, name).bs)
  {
    hide WellFormed, FreshPlaylist;
    FreshPlaylistContents(name);
    AppendTotal(bs, FreshPlaylist(name));
  }

  // ---------- Deleting a playlist ----------

  /** mlib_delete_playlist. */
  function Delete(bs: seq<seq<byte>>, name: CString): (r: Result)
    requires Sound(bs)
  {
    match Find(bs, name)
    case None => Result(bs, false)
    case Some(k) => Result(bs[..k] + bs[k + 1..], true)
  }

  lemma DeleteSound(bs: seq<seq<byte>>, name: CString)
    requires Sound(bs)
    ensures Sound(Delete(bs, name).bs)
  {
    if Find(bs, name).Some? {
      RemoveTotal(bs, Find(bs, name).value);
    }
  }

  // ---------- Adding a path ----------

  /** mlib_add_path_to_plist on playlist `k`. */
  function AddAt(bs: seq<seq<byte>>, k: nat, str: Path): (r: Result)
    requires Sound(bs) && k < |bs|
    ensures Sound(r.bs) && |r.bs| == |bs|
  {
    OffsetNext(bs, k);
    var added := AddPath(bs[k], str, TotalLength(bs));
    AddPathEffect(bs[k], str, TotalLength(bs));
    ReplaceTotal(bs, k, added.block);
    Result(bs[k := added.block], added.ok)
  }

  /** mlib_add_path: the path goes to ".global" first, whatever that returns. */
  function Add(bs: seq<seq<byte>>, plist: CString, str: Path): (r: Result)
    requires Sound(bs)
    ensures Sound(r.bs)
  {
    if plist != GLOBAL && Find(bs, GLOBAL).None? then Result(bs, false)
    else
      var cs := if plist != GLOBAL then AddAt(bs, Find(bs, GLOBAL).value, str).bs else bs;
      match Find(cs, plist)
      case None => Result(cs, false)
      case Some(k) => AddAt(cs, k, str)
  }
}
