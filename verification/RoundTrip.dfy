/**
  Starting a playlist, filling it and deleting it leaves no trace in the file.
 */
module RoundTrip {
  import opened Bytes
  import opened Strings
  import opened Packing
  import opened Block
  import opened Growth
  import opened Image
  import opened Operations
  import opened Catalog
  import opened Space

  /** mlib_add_path_to_plist for each path in turn, on playlist `k`. */
  function AddAll(bs: seq<seq<byte>>, k: nat, paths: seq<Path>): (r: seq<seq<byte>>)
    requires Sound(bs) && k < |bs|
    ensures Sound(r) && |r| == |bs|
    decreases |paths|
  {
    hide Sound;
    if paths == [] then bs else AddAll(AddAt(bs, k, paths[0]).bs, k, paths[1..])
  }

  /** Additions touch one playlist, and not its name. */
  lemma {:induction false} AddAllTouches(bs: seq<seq<byte>>, k: nat, paths: seq<Path>)
    requires Sound(bs) && k < |bs|
    ensures forall j :: 0 <= j < |bs| && j != k ==> AddAll(bs, k, paths)[j] == bs[j]
    ensures Name(AddAll(bs, k, paths)[k]) == Name(bs[k])
    decreases |paths|
  {
    hide Packed, Words, Get32, AddPath, StringAt;
    if paths != [] {
      OffsetNext(bs, k);
      AddPathEffect(bs[k], paths[0], TotalLength(bs));
      AddAllTouches(AddAt(bs, k, paths[0]).bs, k, paths[1..]);
    }
  }

  /** What a series of additions to one playlist adds to the file at most. */
  function AllMost(paths: seq<Path>): nat {
    if paths == [] then 0 else |paths[0]| + 133 + AllMost(paths[1..])
  }

  /** While it all fits below 4 GB, the playlist ends up with its old paths and all the new ones. */
  lemma {:induction false} AddAllReaches(bs: seq<seq<byte>>, k: nat, paths: seq<Path>)
    requires Sound(bs) && k < |bs| && TotalLength(bs) + AllMost(paths) < LIMIT32
    ensures View(AddAll(bs, k, paths))[k].paths == View(bs)[k].paths + set p | p in paths
    decreases |paths|
  {
    hide Sound, AddAt, HasRoom, View, TotalLength;
    if paths != [] {
      var r := AddAt(bs, k, paths[0]);
      AddAtMost(bs, k, paths[0]);
      AddAtRefines(bs, k, paths[0]);
      AddAllReaches(r.bs, k, paths[1..]);
      assert forall p :: p in paths <==> p == paths[0] || p in paths[1..];
    }
  }

  /** A stored name is at most 115 bytes, whatever the name field holds. */
  lemma NameFits(b: seq<byte>)
    requires Framed(b)
    ensures |Name(b)| < PLIST_NAME_LEN
  {
    hide Get32;
    var w := b[PLIST_NAME..BUCKET];
    assert w[115] == b[127] && w[0..116] == w;
    StringAtWindow(w, 0, 116, 0);
  }

  /**
    Start, any number of additions, delete: the deletion finds the new playlist exactly
    when its name was short enough to be stored whole, and then the old playlists are back.
   */
  lemma StartFillDelete(bs: seq<seq<byte>>, name: CString, paths: seq<Path>)
    requires Sound(bs) && Start(bs, name).ok
    ensures var cs := Start(bs, name).bs;
            && Sound(cs) && |cs| == |bs| + 1
            && var ds := AddAll(cs, |bs|, paths);
            && (Delete(ds, name).ok <==> |name| < PLIST_NAME_LEN)
            && Delete(ds, name).bs == if |name| < PLIST_NAME_LEN then bs else ds
  {
    hide FreshPlaylist, Packed, Words, Get32, StringAt, Paths, TotalLength;
    var cs := Start(bs, name).bs;
    StartSound(bs, name);
    FreshPlaylistContents(name);
    AddAllTouches(cs, |bs|, paths);
    var ds := AddAll(cs, |bs|, paths);
    if |name| < PLIST_NAME_LEN {
      assert forall j :: 0 <= j < |bs| ==> ds[j] == bs[j] && Name(ds[j]) != name;
      assert Find(ds, name) == Some(|bs|);
      assert ds[..|bs|] + ds[|bs| + 1..] == bs;
    } else {
      forall j | 0 <= j < |ds| ensures Name(ds[j]) != name {
        assert WellFormed(ds[j]);
        NameFits(ds[j]);
      }
    }
  }

  /** The same on the file: byte for byte, length field included, nothing has changed. */
  lemma StartFillDeleteFile(img: seq<byte>, name: CString, paths: seq<Path>)
    requires Valid(img) && Sound(Playlists(img)) && Start(Playlists(img), name).ok
    requires |name| < PLIST_NAME_LEN
    ensures var cs := Start(Playlists(img), name).bs;
            && Sound(cs) && |cs| == |Playlists(img)| + 1
            && var ds := AddAll(cs, |Playlists(img)|, paths);
            && Sound(Delete(ds, name).bs)
            && Rebuild(Rebuild(Rebuild(img, cs), ds), Delete(ds, name).bs) == img
  {
    hide Rebuild, Start, Delete, WellFormed, AddAll, Playlists;
    var bs := Playlists(img);
    StartFillDelete(bs, name, paths);
    var cs := Start(bs, name).bs;
    var ds := AddAll(cs, |bs|, paths);
    RebuildTwice(img, cs, ds);
    RebuildTwice(img, ds, bs);
    HoldsTotal(img, bs);
  }
}
