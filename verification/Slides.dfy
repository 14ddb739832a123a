/**
  What an addition does to the playlists it is not about: their bytes stay, and
  they slide up the file by whole rounds of growth.
 */
module Slides {
  import opened Bytes
  import opened Strings
  import opened Packing
  import opened Block
  import opened Growth
  import opened Image
  import opened Operations

  /** A playlist grows by whole rounds. */
  lemma AddPathRounds(b: seq<byte>, path: Path, total: nat)
    requires WellFormed(b) && |b| <= total < LIMIT32
    ensures |AddPath(b, path, total).block| >= |b|
    ensures (|AddPath(b, path, total).block| - |b|) % GROWTH_RATE == 0
  {
    hide Packed, Words, Get32, Paths, AddString, Expanded, SetMediaCount, Need, Fits;
    var k := if Need(b, |path| + 1) <= Room(total) then Need(b, |path| + 1) else Room(total);
    assert |AddPath(b, path, total).block| in {|b|, |b| + GROWTH_RATE * k};
  }

  /** Everything before playlist `k` stays in place, and everything after it moves together. */
  lemma ReplaceSlides(bs: seq<seq<byte>>, k: nat, c: seq<byte>, j: nat)
    requires k < |bs| && j <= |bs|
    ensures Offset(bs[k := c], j) == Offset(bs, j) + if j <= k then 0 else |c| - |bs[k]|
  {
    if j <= k {
      assert bs[k := c][..j] == bs[..j];
    } else {
      assert bs[k := c][..j] == bs[..j][k := c];
      ReplaceTotal(bs[..j], k, c);
    }
  }

  /** Only the given playlists may have grown; all else has the same bytes, moved by rounds. */
  ghost predicate Slid(bs: seq<seq<byte>>, cs: seq<seq<byte>>, grown: set<nat>) {
    && |cs| == |bs|
    && (forall j :: 0 <= j < |bs| && j !in grown ==> cs[j] == bs[j])
    && (forall j :: 0 <= j <= |bs| ==>
          Offset(cs, j) >= Offset(bs, j) && (Offset(cs, j) - Offset(bs, j)) % GROWTH_RATE == 0)
  }

  /** All names are the same. */
  ghost predicate SameNames(bs: seq<seq<byte>>, cs: seq<seq<byte>>) {
    && |cs| == |bs|
    && (forall j :: 0 <= j < |bs| ==> |bs[j]| >= PLIST_STRUCT_SIZE && |cs[j]| >= PLIST_STRUCT_SIZE)
    && (forall j :: 0 <= j < |bs| ==> Name(cs[j]) == Name(bs[j]))
  }

  lemma SlidTwice(bs: seq<seq<byte>>, cs: seq<seq<byte>>, ds: seq<seq<byte>>, g: set<nat>, h: set<nat>)
    requires Slid(bs, cs, g) && Slid(cs, ds, h)
    ensures Slid(bs, ds, g + h)
  {
    hide Offset;
  }

  lemma AddAtSlides(bs: seq<seq<byte>>, k: nat, path: Path)
    requires Sound(bs) && k < |bs|
    ensures Slid(bs, AddAt(bs, k, path).bs, {k}) && SameNames(bs, AddAt(bs, k, path).bs)
  {
    hide Get32, Words, Packed, AddPath, Offset, StringAt;
    OffsetNext(bs, k);
    AddPathRounds(bs[k], path, TotalLength(bs));
    AddPathEffect(bs[k], path, TotalLength(bs));
    var c := AddPath(bs[k], path, TotalLength(bs)).block;
    forall j | 0 <= j <= |bs|
      ensures Offset(bs[k := c], j) == Offset(bs, j) + if j <= k then 0 else |c| - |bs[k]|
    {
      ReplaceSlides(bs, k, c, j);
    }
  }

  /** The playlists an addition may grow. */
  function Touched(bs: seq<seq<byte>>, plist: CString): set<nat>
    requires Sound(bs)
  {
    set k | 0 <= k < |bs| && (Find(bs, GLOBAL) == Some(k) || Find(bs, plist) == Some(k))
  }

  /**
    mlib_add_path leaves every playlist but ".global" and the named one byte for byte as
    it was; each may have slid towards the end of the file by a multiple of 128.
   */
  lemma AddSlides(bs: seq<seq<byte>>, plist: CString, path: Path)
    requires Sound(bs)
    ensures Slid(bs, Add(bs, plist, path).bs, Touched(bs, plist))
    ensures SameNames(bs, Add(bs, plist, path).bs)
  {
    hide Packed, Words, Get32, AddAt, Slid, SameNames, Name, TotalLength;
    var ds, g := bs, {};
    NothingSlid(bs);
    if plist != GLOBAL && Find(bs, GLOBAL).Some? {
      AddAtSlides(bs, Find(bs, GLOBAL).value, path);
      ds, g := AddAt(bs, Find(bs, GLOBAL).value, path).bs, {Find(bs, GLOBAL).value};
    }
    var cs, h := ds, {};
    SameNamesSameFind(bs, ds, plist);
    NothingSlid(ds);
    if (plist == GLOBAL || Find(bs, GLOBAL).Some?) && Find(ds, plist).Some? {
      AddAtSlides(ds, Find(ds, plist).value, path);
      cs, h := AddAt(ds, Find(ds, plist).value, path).bs, {Find(ds, plist).value};
    }
    SlidTwice(bs, ds, cs, g, h);
    SameNamesTwice(bs, ds, cs);
    SlidMore(bs, cs, g + h, Touched(bs, plist));
  }

  lemma NothingSlid(bs: seq<seq<byte>>)
    requires Sound(bs)
    ensures Slid(bs, bs, {}) && SameNames(bs, bs)
  {
    hide Packed, Words;
  }

  lemma SlidMore(bs: seq<seq<byte>>, cs: seq<seq<byte>>, g: set<nat>, h: set<nat>)
    requires Slid(bs, cs, g) && g <= h
    ensures Slid(bs, cs, h)
  {
  }

  lemma SameNamesTwice(bs: seq<seq<byte>>, cs: seq<seq<byte>>, ds: seq<seq<byte>>)
    requires SameNames(bs, cs) && SameNames(cs, ds)
    ensures SameNames(bs, ds)
  {
  }

  lemma SameNamesSameFind(bs: seq<seq<byte>>, cs: seq<seq<byte>>, name: CString)
    requires SameNames(bs, cs)
    ensures |bs| == |cs|
    ensures (forall j :: 0 <= j < |bs| ==> |bs[j]| >= PLIST_STRUCT_SIZE && |cs[j]| >= PLIST_STRUCT_SIZE)
    ensures Find(bs, name) == Find(cs, name)
  {
  }
}
