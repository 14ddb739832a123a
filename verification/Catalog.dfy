/**
  What a user sees of a library: a list of named sets of paths. The operations
  here know nothing of bytes; `fits` says whether the 4 GB limit lets a
  request grow the file.
 */
module Catalog {
  import opened Bytes
  import opened Strings
  import opened Packing
  import opened Block
  import opened Growth
  import opened Image
  import opened Operations

  datatype Entry = Entry(name: CString, paths: set<CString>)

  datatype Outcome = Outcome(entries: seq<Entry>, ok: bool)

  /** The first entry of that name. */
  function Lookup(c: seq<Entry>, name: CString): (r: Option<nat>)
    ensures r.Some? ==> r.value < |c| && c[r.value].name == name
    ensures r.Some? ==> forall j :: 0 <= j < r.value ==> c[j].name != name
    ensures r.None? ==> forall j :: 0 <= j < |c| ==> c[j].name != name
  {
    if c == [] then None
    else if c[0].name == name then Some(0)
    else
      match Lookup(c[1..], name)
      case None => None
      case Some(k) => Some(k + 1)
  }

  function StartEntry(c: seq<Entry>, name: CString, fits: bool): Outcome {
    if Lookup(c, name).Some? || !fits then Outcome(c, false)
    else Outcome(c + [Entry(Stored(name), {})], true)
  }

  function DeleteEntry(c: seq<Entry>, name: CString): Outcome {
    match Lookup(c, name)
    case None => Outcome(c, false)
    case Some(k) => Outcome(c[..k] + c[k + 1..], true)
  }

  function AddToEntry(c: seq<Entry>, k: nat, path: Path, fits: bool): (r: Outcome)
    requires k < |c|
    ensures |r.entries| == |c|
  {
    if path in c[k].paths || !fits then Outcome(c, false)
    else Outcome(c[k := c[k].(paths := c[k].paths + {path})], true)
  }

  function AddEntry(c: seq<Entry>, plist: CString, path: Path, globalFits: bool, fits: bool): Outcome {
    if plist != GLOBAL && Lookup(c, GLOBAL).None? then Outcome(c, false)
    else
      var d := if plist != GLOBAL
               then AddToEntry(c, Lookup(c, GLOBAL).value, path, globalFits).entries
               else c;
      match Lookup(d, plist)
      case None => Outcome(d, false)
      case Some(k) => AddToEntry(d, k, path, fits)
  }

  /**
    When ".global" and the named entry exist and the file has room, the path ends up in
    both, nothing else changes, and the call fails only if the named entry had it already.
   */
  lemma AddReachesBoth(c: seq<Entry>, plist: CString, path: Path, j: nat)
    requires Lookup(c, GLOBAL).Some? && Lookup(c, plist).Some? && j < |c|
    ensures var r := AddEntry(c, plist, path, true, true);
            && |r.entries| == |c| && r.entries[j].name == c[j].name
            && r.entries[j].paths
               == (c[j].paths + if Some(j) in {Lookup(c, GLOBAL), Lookup(c, plist)} then {path} else {})
            && (r.ok <==> path !in c[Lookup(c, plist).value].paths)
  {
    hide AddToEntry, Lookup;
    var g, k := Lookup(c, GLOBAL).value, Lookup(c, plist).value;
    var d := if plist != GLOBAL then AddToEntry(c, g, path, true).entries else c;
    forall i | 0 <= i < |c| ensures d[i].name == c[i].name { AddToEntryAt(c, g, path, true, i); }
    LookupSame(c, d, plist);
    AddToEntryAt(c, g, path, true, j);
    AddToEntryAt(c, g, path, true, k);
    AddToEntryAt(d, k, path, true, j);
  }

  lemma AddToEntryAt(c: seq<Entry>, k: nat, path: Path, fits: bool, j: nat)
    requires k < |c| && j < |c|
    ensures var r := AddToEntry(c, k, path, fits);
            && r.entries[j].name == c[j].name && (r.ok <==> path !in c[k].paths && fits)
            && r.entries[j].paths == c[j].paths + if j == k && fits then {path} else {}
  {
  }

  /** A lookup sees names only. */
  lemma LookupSame(c: seq<Entry>, d: seq<Entry>, name: CString)
    requires |c| == |d| && forall j :: 0 <= j < |c| ==> d[j].name == c[j].name
    ensures Lookup(c, name) == Lookup(d, name)
  {
  }

  /**
    A failed addition is not atomic: the call fails and has changed the library exactly
    when ".global" was not the target, exists, did not have the path and had room for it,
    while the target is missing, has the path already or is refused for size. The change
    is then the path in ".global" and nothing else.
   */
  lemma FailedAddLeaves(c: seq<Entry>, plist: CString, path: Path, globalFits: bool, fits: bool)
    ensures var r, g := AddEntry(c, plist, path, globalFits, fits), Lookup(c, GLOBAL);
            && (!r.ok && r.entries != c <==>
                  && plist != GLOBAL && g.Some? && globalFits && path !in c[g.value].paths
                  && (Lookup(c, plist).None? || path in c[Lookup(c, plist).value].paths || !fits))
            && (!r.ok && r.entries != c ==>
                  r.entries == c[g.value := Entry(GLOBAL, c[g.value].paths + {path})])
  {
    hide Lookup;
    if plist != GLOBAL && Lookup(c, GLOBAL).Some? {
      var g := Lookup(c, GLOBAL).value;
      var d := AddToEntry(c, g, path, globalFits).entries;
      LookupSame(c, d, plist);
      if globalFits && path !in c[g].paths {
        assert path in d[g].paths;
      }
      if Lookup(c, plist).Some? {
        assert d[Lookup(c, plist).value] == c[Lookup(c, plist).value];
      }
    }
  }

  // ---------- What the operations promise ----------

  /** The entries of that name, in order. */
  function Named(c: seq<Entry>, name: CString): seq<Entry> {
    if c == [] then []
    else if c[0].name == name then [c[0]] + Named(c[1..], name)
    else Named(c[1..], name)
  }

  /** The entries of other names, in order. */
  function Others(c: seq<Entry>, name: CString): seq<Entry> {
    if c == [] then []
    else if c[0].name == name then Others(c[1..], name)
    else [c[0]] + Others(c[1..], name)
  }

  ghost predicate HasName(c: seq<Entry>, name: CString) {
    exists e :: e in c && e.name == name
  }

  /**
    A start succeeds exactly when the name is new and the file has room. It then adds one
    entry without paths at the end, whose name is as much of the name as the field takes.
   */
  ghost predicate PlaylistStarted(c: seq<Entry>, name: CString, fits: bool, d: seq<Entry>, ok: bool) {
    && (ok <==> fits && !HasName(c, name))
    && (!ok ==> d == c)
    && (ok ==>
          && c <= d && |d| == |c| + 1 && d[|c|].paths == {} && d[|c|].name <= name
          && |d[|c|].name| == if |name| < PLIST_NAME_LEN then |name| else PLIST_NAME_LEN - 1)
  }

  /**
    A deletion succeeds exactly when there is an entry of that name. Then the first such
    entry is gone, and all entries of other names stay, in their order.
   */
  ghost predicate PlaylistDeleted(c: seq<Entry>, name: CString, d: seq<Entry>, ok: bool) {
    && (ok <==> HasName(c, name))
    && (!ok ==> d == c)
    && (ok ==>
          && |d| == |c| - 1 && Others(d, name) == Others(c, name)
          && Named(c, name) != [] && Named(d, name) == Named(c, name)[1..])
  }

  /** The entry `k` gains the path of an addition to `plist`. */
  predicate Gains(c: seq<Entry>, plist: CString, globalFits: bool, fits: bool, k: nat) {
    || (Lookup(c, plist) == Some(k) && fits && (plist == GLOBAL || Lookup(c, GLOBAL).Some?))
    || (Lookup(c, GLOBAL) == Some(k) && globalFits && plist != GLOBAL)
  }

  /**
    An addition succeeds exactly when the named entry, with ".global" there, did not have
    the path and now has it. No entry changes but the named one and ".global", and those
    only gain the path.
   */
  ghost predicate PathAdded(c: seq<Entry>, plist: CString, path: Path, globalFits: bool, fits: bool,
                            d: seq<Entry>, ok: bool)
  {
    && |d| == |c|
    && (ok <==>
          && Lookup(c, plist).Some? && (plist == GLOBAL || Lookup(c, GLOBAL).Some?)
          && path !in c[Lookup(c, plist).value].paths && path in d[Lookup(c, plist).value].paths)
    && forall k :: 0 <= k < |c| ==>
         && d[k].name == c[k].name
         && d[k].paths == c[k].paths + if Gains(c, plist, globalFits, fits, k) then {path} else {}
  }

  /** No two entries of one name. */
  ghost predicate DistinctNames(c: seq<Entry>) {
    forall i, j :: 0 <= i < j < |c| ==> c[i].name != c[j].name
  }

  lemma HasNameIsLookup(c: seq<Entry>, name: CString)
    ensures HasName(c, name) <==> Lookup(c, name).Some?
  {
    if Lookup(c, name).Some? { assert c[Lookup(c, name).value] in c; }
  }

  lemma StartMeans(c: seq<Entry>, name: CString, fits: bool)
    ensures var r := StartEntry(c, name, fits);
            PlaylistStarted(c, name, fits, r.entries, r.ok)
  {
    hide HasName;
    HasNameIsLookup(c, name);
  }

  lemma {:induction false} NamedConcat(a: seq<Entry>, b: seq<Entry>, name: CString)
    ensures Named(a + b, name) == Named(a, name) + Named(b, name)
  {
    if a == [] {
      assert a + b == b;
    } else {
      assert (a + b)[0] == a[0] && (a + b)[1..] == a[1..] + b;
      NamedConcat(a[1..], b, name);
    }
  }

  lemma {:induction false} OthersConcat(a: seq<Entry>, b: seq<Entry>, name: CString)
    ensures Others(a + b, name) == Others(a, name) + Others(b, name)
  {
    if a == [] {
      assert a + b == b;
    } else {
      assert (a + b)[0] == a[0] && (a + b)[1..] == a[1..] + b;
      OthersConcat(a[1..], b, name);
    }
  }

  /** Of an entry between two parts. */
  lemma NamedBetween(a: seq<Entry>, e: Entry, b: seq<Entry>, name: CString)
    requires e.name == name
    ensures Named(a + [e] + b, name) == Named(a, name) + [e] + Named(b, name)
    ensures Others(a + [e] + b, name) == Others(a + b, name)
  {
    var eb := [e] + b;
    assert a + [e] + b == a + eb && eb[1..] == b;
    NamedConcat(a, eb, name);
    OthersConcat(a, eb, name);
    OthersConcat(a, b, name);
  }

  lemma {:induction false} NoneNamed(a: seq<Entry>, name: CString)
    requires forall j :: 0 <= j < |a| ==> a[j].name != name
    ensures Named(a, name) == [] && Others(a, name) == a
  {
    if a != [] { NoneNamed(a[1..], name); }
  }

  lemma DeleteMeans(c: seq<Entry>, name: CString)
    ensures var r := DeleteEntry(c, name);
            PlaylistDeleted(c, name, r.entries, r.ok)
  {
    hide HasName, Lookup, Named, Others;
    HasNameIsLookup(c, name);
    if Lookup(c, name).Some? {
      var k := Lookup(c, name).value;
      assert c == c[..k] + [c[k]] + c[k + 1..];
      NamedBetween(c[..k], c[k], c[k + 1..], name);
      NamedConcat(c[..k], c[k + 1..], name);
      NoneNamed(c[..k], name);
    }
  }

  lemma {:induction false} NamedMembers(c: seq<Entry>, name: CString)
    ensures forall e :: e in Named(c, name) <==> e in c && e.name == name
    ensures forall e :: e in Others(c, name) <==> e in c && e.name != name
  {
    if c != [] {
      NamedMembers(c[1..], name);
      assert forall e :: e in c <==> e == c[0] || e in c[1..];
    }
  }

  lemma {:induction false} NamedOnce(c: seq<Entry>, name: CString)
    requires DistinctNames(c)
    ensures |Named(c, name)| <= 1
  {
    if c != [] {
      if c[0].name == name {
        NoneNamed(c[1..], name);
      } else {
        NamedOnce(c[1..], name);
      }
    }
  }

  lemma {:induction false} OthersDistinct(c: seq<Entry>, name: CString)
    requires DistinctNames(c)
    ensures DistinctNames(Others(c, name))
  {
    if c != [] {
      OthersDistinct(c[1..], name);
      NamedMembers(c[1..], name);
      forall j | 0 <= j < |Others(c[1..], name)| ensures Others(c[1..], name)[j].name != c[0].name {
        assert Others(c[1..], name)[j] in c[1..];
      }
    }
  }

  /**
    After a deletion the entries of other names are the same; with distinct names the
    name is gone.
   */
  lemma DeletedIsGone(c: seq<Entry>, name: CString, d: seq<Entry>, ok: bool, e: Entry)
    requires PlaylistDeleted(c, name, d, ok)
    ensures e.name != name ==> (e in d <==> e in c)
    ensures DistinctNames(c) ==> d == Others(c, name) && Lookup(d, name).None? && DistinctNames(d)
  {
    hide Lookup;
    NamedMembers(c, name);
    NamedMembers(d, name);
    HasNameIsLookup(d, name);
    if DistinctNames(c) {
      NamedOnce(c, name);
      OthersDistinct(c, name);
      forall j | 0 <= j < |d| ensures d[j].name != name {
        assert d[j] in d;
        assert ok ==> |Named(d, name)| == 0;
      }
      NoneNamed(d, name);
    }
  }

  /** After a start the name is found at the new place, if it fits the name field. */
  lemma StartedIsFound(c: seq<Entry>, name: CString, fits: bool, d: seq<Entry>)
    requires PlaylistStarted(c, name, fits, d, true)
    ensures |name| < PLIST_NAME_LEN ==> Lookup(d, name) == Some(|c|)
    ensures |name| >= PLIST_NAME_LEN ==> Lookup(d, name).None?
  {
    forall j | 0 <= j < |c| ensures d[j].name != name {
      assert c[j] in c && d[j] == c[j];
    }
  }

  lemma AddMeans(c: seq<Entry>, plist: CString, path: Path, globalFits: bool, fits: bool)
    ensures var r := AddEntry(c, plist, path, globalFits, fits);
            PathAdded(c, plist, path, globalFits, fits, r.entries, r.ok)
  {
    hide Lookup, AddToEntry;
    var r, g := AddEntry(c, plist, path, globalFits, fits), Lookup(c, GLOBAL);
    if plist == GLOBAL || g.Some? {
      var d := if plist != GLOBAL then AddToEntry(c, g.value, path, globalFits).entries else c;
      forall j | 0 <= j < |c|
        ensures d[j].name == c[j].name
        ensures d[j].paths == c[j].paths + if plist != GLOBAL && g == Some(j) && globalFits then {path} else {}
      {
        if plist != GLOBAL { AddToEntryAt(c, g.value, path, globalFits, j); }
      }
      LookupSame(c, d, plist);
      var k := Lookup(c, plist);
      assert k.Some? && plist != GLOBAL ==> k != g;
      if k.Some? {
        forall j | 0 <= j < |c|
          ensures r.entries[j].name == d[j].name && (r.ok <==> path !in d[k.value].paths && fits)
          ensures r.entries[j].paths == d[j].paths + if k == Some(j) && fits then {path} else {}
        {
          AddToEntryAt(d, k.value, path, fits, j);
        }
      }
    }
  }

  // ---------- Decoding ----------

  ghost function PathSet(b: seq<byte>): set<CString>
    requires Framed(b)
  {
    set p | p in Paths(b)
  }

  lemma {:induction false} AscendingSize(ps: seq<CString>)
    requires Ascending(ps, Itself())
    ensures |set p | p in ps| == |ps|
  {
    hide Ascending;
    if ps != [] {
      Tails(ps, Itself());
      AscendingSize(ps[1..]);
      AscendingHeadOnce(ps);
      assert (set p | p in ps) == (set p | p in ps[1..]) + {ps[0]};
    }
  }

  /** The stored count, the number of indexes and the size of the path set agree. */
  lemma CountsAgree(b: seq<byte>)
    requires WellFormed(b)
    ensures MediaCount(b) == Count(b) == |PathSet(b)|
  {
    hide Get32, Words, StringsAt, Packed, Ascending;
    PathsAscend(b);
    AscendingSize(Paths(b));
  }

  ghost function EntryOf(b: seq<byte>): Entry
    requires Framed(b)
  {
    Entry(Name(b), PathSet(b))
  }

  /** What a sequence of playlists shows to the user. */
  ghost function View(bs: seq<seq<byte>>): (c: seq<Entry>)
    requires Sound(bs)
    ensures |c| == |bs|
  {
    seq(|bs|, k requires 0 <= k < |bs| => EntryOf(bs[k]))
  }

  lemma ValidIsSound(img: seq<byte>)
    requires Valid(img)
    ensures Sound(Playlists(img)) && TotalLength(Playlists(img)) == |img|
  {
    HoldsTotal(img, Playlists(img));
  }

  /** What the bytes of a library file show to the user. */
  ghost function Decode(img: seq<byte>): seq<Entry>
    requires Valid(img)
  {
    ValidIsSound(img);
    View(Playlists(img))
  }

  // ---------- Each operation commutes with decoding ----------

  lemma FindRefines(bs: seq<seq<byte>>, name: CString)
    requires Sound(bs)
    ensures Find(bs, name) == Lookup(View(bs), name)
  {
    hide Packed, Paths, PathSet, Get32, StringAt, Lookup, Find, TotalLength;
    assert forall k :: 0 <= k < |bs| ==> View(bs)[k].name == Name(bs[k]);
  }

  /** mlib_start_playlist appends an entry without paths, or refuses. */
  lemma StartRefines(bs: seq<seq<byte>>, name: CString)
    requires Sound(bs)
    ensures Sound(Start(bs, name).bs)
    ensures var r := StartEntry(View(bs), name, TotalLength(bs) + FRESH_SIZE < LIMIT32);
            View(Start(bs, name).bs) == r.entries && Start(bs, name).ok == r.ok
  {
    hide FreshPlaylist, Paths, Name, Packed;
    FindRefines(bs, name);
    StartSound(bs, name);
    FreshPlaylistContents(name);
    assert PathSet(FreshPlaylist(name)) == {};
  }

  /** Starting a playlist is not refused for size; an existing name is found out first. */
  predicate StartHasRoom(bs: seq<seq<byte>>, name: CString)
    requires Sound(bs)
  {
    Find(bs, name).Some? || TotalLength(bs) + FRESH_SIZE < LIMIT32
  }

  /** mlib_delete_playlist removes the first entry of that name and nothing else. */
  lemma DeleteRefines(bs: seq<seq<byte>>, name: CString)
    requires Sound(bs)
    ensures Sound(Delete(bs, name).bs)
    ensures var r := DeleteEntry(View(bs), name);
            View(Delete(bs, name).bs) == r.entries && Delete(bs, name).ok == r.ok
  {
    hide Packed, Paths, PathSet, Get32, StringAt, Lookup, TotalLength, Name;
    FindRefines(bs, name);
    DeleteSound(bs, name);
  }

  /**
    An addition of `path` to playlist `k` is not refused for size: the path is there
    already, which is found out before any growth, or the file may grow far enough.
   */
  predicate HasRoom(bs: seq<seq<byte>>, k: nat, path: Path)
    requires Sound(bs) && k < |bs|
  {
    path in Paths(bs[k]) || Need(bs[k], |path| + 1) <= Room(TotalLength(bs))
  }

  /** mlib_add_path_to_plist adds the path to one entry, or refuses and changes nothing seen. */
  lemma AddAtRefines(bs: seq<seq<byte>>, k: nat, path: Path)
    requires Sound(bs) && k < |bs|
    ensures var r := AddToEntry(View(bs), k, path, HasRoom(bs, k, path));
            View(AddAt(bs, k, path).bs) == r.entries && AddAt(bs, k, path).ok == r.ok
  {
    hide AddPath, Paths, Name, Packed, Insert, Get32;
    OffsetNext(bs, k);
    AddPathEffect(bs[k], path, TotalLength(bs));
    var c := AddPath(bs[k], path, TotalLength(bs)).block;
    InsertMembers(Paths(bs[k]), path);
    if AddAt(bs, k, path).ok {
      assert PathSet(c) == PathSet(bs[k]) + {path};
    } else {
      assert PathSet(c) == PathSet(bs[k]);
      assert View(AddAt(bs, k, path).bs) == View(bs);
    }
  }

  /** The ".global" part of an addition is not refused for size. */
  predicate GlobalHasRoom(bs: seq<seq<byte>>, path: Path)
    requires Sound(bs)
  {
    Find(bs, GLOBAL).Some? ==> HasRoom(bs, Find(bs, GLOBAL).value, path)
  }

  /** The playlists once the ".global" part of an addition is done. */
  function AfterGlobal(bs: seq<seq<byte>>, plist: CString, path: Path): (cs: seq<seq<byte>>)
    requires Sound(bs)
    ensures Sound(cs)
  {
    if plist != GLOBAL && Find(bs, GLOBAL).Some? then AddAt(bs, Find(bs, GLOBAL).value, path).bs else bs
  }

  /**
    The addition to the named playlist, ".global" having grown first, is not refused for
    size. It is not reached when ".global" is needed and missing.
   */
  predicate TargetHasRoom(bs: seq<seq<byte>>, plist: CString, path: Path)
    requires Sound(bs)
  {
    var cs := AfterGlobal(bs, plist, path);
    (plist == GLOBAL || Find(bs, GLOBAL).Some?) && Find(cs, plist).Some? ==>
      HasRoom(cs, Find(cs, plist).value, path)
  }

  /** mlib_add_path adds the path to ".global" and then to the named entry. */
  lemma AddRefines(bs: seq<seq<byte>>, plist: CString, path: Path)
    requires Sound(bs)
    ensures var r := AddEntry(View(bs), plist, path, GlobalHasRoom(bs, path),
                              TargetHasRoom(bs, plist, path));
            View(Add(bs, plist, path).bs) == r.entries && Add(bs, plist, path).ok == r.ok
  {
    hide AddAt, Paths, Name, Packed, View, Get32, TotalLength, Lookup;
    FindRefines(bs, GLOBAL);
    if plist != GLOBAL && Find(bs, GLOBAL).Some? {
      AddAtRefines(bs, Find(bs, GLOBAL).value, path);
    }
    var cs := AfterGlobal(bs, plist, path);
    FindRefines(cs, plist);
    if Find(cs, plist).Some? {
      AddAtRefines(cs, Find(cs, plist).value, path);
    }
  }

  // ---------- The same for the bytes of a file ----------

  lemma StartDecodes(img: seq<byte>, name: CString, c: seq<byte>)
    requires Valid(img) && Valid(c)
    requires Sound(Playlists(img)) && Playlists(c) == Start(Playlists(img), name).bs
    ensures Decode(c) == StartEntry(Decode(img), name, |img| + FRESH_SIZE < LIMIT32).entries
    ensures PlaylistStarted(Decode(img), name, |img| + FRESH_SIZE < LIMIT32, Decode(c),
                            Start(Playlists(img), name).ok)
  {
    hide Valid, Playlists, Start, StartEntry, PlaylistStarted, View, TotalLength;
    ValidIsSound(img);
    StartMeans(Decode(img), name, |img| + FRESH_SIZE < LIMIT32);
    StartRefines(Playlists(img), name);
  }

  lemma DeleteDecodes(img: seq<byte>, name: CString, c: seq<byte>)
    requires Valid(img) && Valid(c)
    requires Sound(Playlists(img)) && Playlists(c) == Delete(Playlists(img), name).bs
    ensures Decode(c) == DeleteEntry(Decode(img), name).entries
    ensures PlaylistDeleted(Decode(img), name, Decode(c), Delete(Playlists(img), name).ok)
  {
    hide Valid, Playlists, Delete, DeleteEntry, PlaylistDeleted, View;
    ValidIsSound(img);
    DeleteMeans(Decode(img), name);
    DeleteRefines(Playlists(img), name);
  }

  lemma AddDecodes(img: seq<byte>, plist: CString, path: Path, c: seq<byte>)
    requires Valid(img) && Valid(c)
    requires Sound(Playlists(img)) && Playlists(c) == Add(Playlists(img), plist, path).bs
    ensures Decode(c)
         == AddEntry(Decode(img), plist, path, GlobalHasRoom(Playlists(img), path),
                     TargetHasRoom(Playlists(img), plist, path)).entries
    ensures PathAdded(Decode(img), plist, path, GlobalHasRoom(Playlists(img), path),
                      TargetHasRoom(Playlists(img), plist, path), Decode(c),
                      Add(Playlists(img), plist, path).ok)
  {
    hide Valid, Playlists, Add, AddEntry, PathAdded, View, GlobalHasRoom, TargetHasRoom;
    ValidIsSound(img);
    AddMeans(Decode(img), plist, path, GlobalHasRoom(Playlists(img), path),
             TargetHasRoom(Playlists(img), plist, path));
    AddRefines(Playlists(img), plist, path);
  }
}
