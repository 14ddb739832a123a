/**
  Whole runs: any sequence of public operations on a library.
 */
module Runs {
  import opened Bytes
  import opened Strings
  import opened Packing
  import opened Block
  import opened Growth
  import opened Image
  import opened Operations
  import opened Catalog

  datatype Op =
    | StartOp(name: CString)
    | AddOp(plist: CString, path: Path)
    | DeleteOp(name: CString)

  function Step(bs: seq<seq<byte>>, op: Op): (r: Result)
    requires Sound(bs)
    ensures Sound(r.bs)
  {
    match op
    case StartOp(name) => StartSound(bs, name); Start(bs, name)
    case AddOp(plist, path) => Add(bs, plist, path)
    case DeleteOp(name) => DeleteSound(bs, name); Delete(bs, name)
  }

  function Run(bs: seq<seq<byte>>, ops: seq<Op>): (r: seq<seq<byte>>)
    requires Sound(bs)
    ensures Sound(r)
    decreases |ops|
  {
    hide Sound, Step;
    if ops == [] then bs else Run(Step(bs, ops[0]).bs, ops[1..])
  }

  /** What the operations of a run return: 0 or -1 each. */
  function Returns(bs: seq<seq<byte>>, ops: seq<Op>): (r: seq<int>)
    requires Sound(bs)
    ensures |r| == |ops|
    decreases |ops|
  {
    hide Sound, Step;
    if ops == [] then []
    else [if Step(bs, ops[0]).ok then 0 else -1] + Returns(Step(bs, ops[0]).bs, ops[1..])
  }

  /** The playlists of a freshly created library. */
  function Created(): (bs: seq<seq<byte>>)
    ensures Sound(bs)
  {
    FreshPlaylistContents(GLOBAL);
    AppendTotal([], FreshPlaylist(GLOBAL));
    assert [] + [FreshPlaylist(GLOBAL)] == [FreshPlaylist(GLOBAL)];
    [FreshPlaylist(GLOBAL)]
  }

  /** A fresh library shows an empty ".global". */
  lemma CreatedView()
    ensures View(Created()) == [Entry(GLOBAL, {})]
  {
    hide FreshPlaylist, Packed, Words, StringsAt, Name;
    FreshPlaylistContents(GLOBAL);
    assert PathSet(FreshPlaylist(GLOBAL)) == {};
  }

  // ---------- The file after a run ----------

  /** The library file after a run on it. */
  function RunFile(img: seq<byte>, ops: seq<Op>): seq<byte>
    requires Valid(img)
  {
    ValidIsSound(img);
    Rebuild(img, Run(Playlists(img), ops))
  }

  /**
    After any run, whatever was refused on the way, the file is valid: playlists tile
    it exactly, and the 32-bit length field is its true length, so it never wrapped.
   */
  lemma RunFileIsValid(img: seq<byte>, ops: seq<Op>)
    requires Valid(img)
    ensures var r := RunFile(img, ops);
            && Valid(r) && Playlists(r) == Run(Playlists(img), ops)
            && Get32(r, LIB_LEN) == |r| == TotalLength(Run(Playlists(img), ops))
  {
    hide Rebuild, Run, Packed, Get32;
    ValidIsSound(img);
    var bs := Run(Playlists(img), ops);
    RebuildHolds(img, bs);
    HoldsPlaylists(Rebuild(img, bs), bs);
  }

  /** Running on the file is running one operation at a time on the file. */
  lemma RunFileSteps(img: seq<byte>, ops: seq<Op>)
    requires Valid(img) && ops != []
    ensures Valid(RunFile(img, ops[..1]))
    ensures RunFile(img, ops) == RunFile(RunFile(img, ops[..1]), ops[1..])
  {
    hide Rebuild, Step, Packed, Get32, Framed;
    RunFileIsValid(img, ops[..1]);
    ValidIsSound(img);
    assert Run(Playlists(img), ops[..1]) == Step(Playlists(img), ops[0]).bs by {
      assert ops[..1][1..] == [];
      assert Run(Step(Playlists(img), ops[0]).bs, []) == Step(Playlists(img), ops[0]).bs;
    }
    RebuildTwice(img, Run(Playlists(img), ops[..1]), Run(Playlists(img), ops));
  }

  /** A run of no operations leaves the file alone. */
  lemma RunFileNothing(img: seq<byte>)
    requires Valid(img)
    ensures RunFile(img, []) == img
  {
    hide Rebuild, Get32, Packed;
    HoldsTotal(img, Playlists(img));
  }

  /** What one operation makes of the file, and the rest of the run of that. */
  lemma RunFileFirst(img: seq<byte>, ops: seq<Op>, c: seq<byte>)
    requires Valid(img) && Sound(Playlists(img)) && ops != []
    requires c == Rebuild(img, Step(Playlists(img), ops[0]).bs)
    ensures Valid(c) && RunFile(img, ops) == RunFile(c, ops[1..])
    ensures var r := Step(Playlists(img), ops[0]);
            && Sound(Playlists(c)) && Playlists(c) == r.bs
            && Returns(Playlists(img), ops) == [if r.ok then 0 else -1] + Returns(Playlists(c), ops[1..])
  {
    hide Rebuild, Step, Valid, Sound, Playlists;
    assert ops[..1][1..] == [];
    assert Run(Step(Playlists(img), ops[0]).bs, []) == Step(Playlists(img), ops[0]).bs;
    RunFileIsValid(img, ops[..1]);
    RunFileSteps(img, ops);
  }

  // ---------- Runs as the user sees them ----------

  /** False where the ".global" part, or the rest, of an operation is refused for size. */
  datatype Fits = Fits(global: bool, target: bool)

  function StepEntries(c: seq<Entry>, op: Op, f: Fits): Outcome {
    match op
    case StartOp(name) => StartEntry(c, name, f.target)
    case AddOp(plist, path) => AddEntry(c, plist, path, f.global, f.target)
    case DeleteOp(name) => DeleteEntry(c, name)
  }

  function RunEntries(c: seq<Entry>, ops: seq<Op>, fs: seq<Fits>): seq<Entry>
    requires |fs| == |ops|
    decreases |ops|
  {
    if ops == [] then c else RunEntries(StepEntries(c, ops[0], fs[0]).entries, ops[1..], fs[1..])
  }

  function EntryReturns(c: seq<Entry>, ops: seq<Op>, fs: seq<Fits>): seq<int>
    requires |fs| == |ops|
    decreases |ops|
  {
    if ops == [] then []
    else
      var r := StepEntries(c, ops[0], fs[0]);
      [if r.ok then 0 else -1] + EntryReturns(r.entries, ops[1..], fs[1..])
  }

  /** What the file allows the next operation. */
  function FitsOf(bs: seq<seq<byte>>, op: Op): Fits
    requires Sound(bs)
  {
    match op
    case StartOp(name) => Fits(true, StartHasRoom(bs, name))
    case AddOp(plist, path) => Fits(GlobalHasRoom(bs, path), TargetHasRoom(bs, plist, path))
    case DeleteOp(_) => Fits(true, true)
  }

  /** What the file allows each operation of a run. */
  function RunFits(bs: seq<seq<byte>>, ops: seq<Op>): (fs: seq<Fits>)
    requires Sound(bs)
    ensures |fs| == |ops|
    decreases |ops|
  {
    hide Sound, Step, FitsOf;
    if ops == [] then [] else [FitsOf(bs, ops[0])] + RunFits(Step(bs, ops[0]).bs, ops[1..])
  }

  /** As StartRefines; the limit does not matter for a name that is taken. */
  lemma StartHasRoomRefines(bs: seq<seq<byte>>, name: CString)
    requires Sound(bs)
    ensures Sound(Start(bs, name).bs)
    ensures var r := StartEntry(View(bs), name, StartHasRoom(bs, name));
            View(Start(bs, name).bs) == r.entries && Start(bs, name).ok == r.ok
  {
    hide Start, View, Lookup, Find, TotalLength;
    StartRefines(bs, name);
    FindRefines(bs, name);
  }

  lemma StepRefines(bs: seq<seq<byte>>, op: Op)
    requires Sound(bs)
    ensures var r := StepEntries(View(bs), op, FitsOf(bs, op));
            View(Step(bs, op).bs) == r.entries && Step(bs, op).ok == r.ok
  {
    hide Start, Delete, Add, View, AddEntry, StartEntry, DeleteEntry, StartHasRoom;
    match op
    case StartOp(name) => StartHasRoomRefines(bs, name);
    case AddOp(plist, path) => AddRefines(bs, plist, path);
    case DeleteOp(name) => DeleteRefines(bs, name);
  }

  /** What a call promises about the entries before and after, and about its result code. */
  ghost predicate Means(c: seq<Entry>, op: Op, f: Fits, d: seq<Entry>, ok: bool) {
    match op
    case StartOp(name) => PlaylistStarted(c, name, f.target, d, ok)
    case AddOp(plist, path) => PathAdded(c, plist, path, f.global, f.target, d, ok)
    case DeleteOp(name) => PlaylistDeleted(c, name, d, ok)
  }

  lemma StepMeans(bs: seq<seq<byte>>, op: Op)
    requires Sound(bs)
    ensures Means(View(bs), op, FitsOf(bs, op), View(Step(bs, op).bs), Step(bs, op).ok)
  {
    hide Step, FitsOf, View, Sound, AddEntry, StartEntry, DeleteEntry;
    hide PlaylistStarted, PathAdded, PlaylistDeleted;
    StepRefines(bs, op);
    var c, f := View(bs), FitsOf(bs, op);
    match op
    case StartOp(name) => StartMeans(c, name, f.target);
    case AddOp(plist, path) => AddMeans(c, plist, path, f.global, f.target);
    case DeleteOp(name) => DeleteMeans(c, name);
  }

  /** The same for the bytes of a file. */
  lemma StepDecodes(img: seq<byte>, op: Op, c: seq<byte>)
    requires Valid(img) && Sound(Playlists(img)) && c == Rebuild(img, Step(Playlists(img), op).bs)
    ensures Valid(c)
    ensures Means(Decode(img), op, FitsOf(Playlists(img), op), Decode(c), Step(Playlists(img), op).ok)
  {
    hide Rebuild, Step, FitsOf, View, Means, Get32, Packed, Framed;
    var bs := Step(Playlists(img), op).bs;
    RebuildHolds(img, bs);
    HoldsPlaylists(c, bs);
    StepMeans(Playlists(img), op);
  }

  /** A run of two parts is the second part after the first. */
  lemma {:induction false} RunConcat(bs: seq<seq<byte>>, a: seq<Op>, b: seq<Op>)
    requires Sound(bs)
    ensures Run(bs, a + b) == Run(Run(bs, a), b)
    decreases |a|
  {
    hide Step, Sound;
    if a == [] {
      assert a + b == b;
    } else {
      assert (a + b)[0] == a[0] && (a + b)[1..] == a[1..] + b;
      RunConcat(Step(bs, a[0]).bs, a[1..], b);
    }
  }

  /** So are its result codes, and what the file allows it. */
  lemma {:induction false} ReturnsConcat(bs: seq<seq<byte>>, a: seq<Op>, b: seq<Op>)
    requires Sound(bs)
    ensures Returns(bs, a + b) == Returns(bs, a) + Returns(Run(bs, a), b)
    ensures RunFits(bs, a + b) == RunFits(bs, a) + RunFits(Run(bs, a), b)
    decreases |a|
  {
    hide Step, FitsOf, Sound;
    if a == [] {
      assert a + b == b;
    } else {
      assert (a + b)[0] == a[0] && (a + b)[1..] == a[1..] + b;
      ReturnsConcat(Step(bs, a[0]).bs, a[1..], b);
    }
  }

  lemma RunOne(bs: seq<seq<byte>>, op: Op)
    requires Sound(bs)
    ensures Run(bs, [op]) == Step(bs, op).bs
    ensures Returns(bs, [op]) == [if Step(bs, op).ok then 0 else -1]
    ensures RunFits(bs, [op]) == [FitsOf(bs, op)]
  {
    hide Step, FitsOf, Sound;
    assert [op][1..] == [];
  }

  /** Every call of every run keeps its promise, and its result code tells success from failure. */
  lemma RunMeans(bs: seq<seq<byte>>, ops: seq<Op>, i: nat)
    requires Sound(bs) && i < |ops|
    ensures var ret := Returns(bs, ops)[i];
            && (ret == 0 || ret == -1)
            && Means(View(Run(bs, ops[..i])), ops[i], RunFits(bs, ops)[i], View(Run(bs, ops[..i + 1])), ret == 0)
  {
    hide Step, FitsOf, Sound, View, Run, Returns, RunFits, Means;
    var cs := Run(bs, ops[..i]);
    assert ops == ops[..i + 1] + ops[i + 1..] && ops[..i + 1] == ops[..i] + [ops[i]];
    ReturnsConcat(bs, ops[..i + 1], ops[i + 1..]);
    ReturnsConcat(bs, ops[..i], [ops[i]]);
    RunConcat(bs, ops[..i], [ops[i]]);
    RunOne(cs, ops[i]);
    StepMeans(cs, ops[i]);
  }

  /** Any run on the bytes, decoded, is the same run on what the user sees. */
  lemma {:induction false} RunRefines(bs: seq<seq<byte>>, ops: seq<Op>)
    requires Sound(bs)
    ensures View(Run(bs, ops)) == RunEntries(View(bs), ops, RunFits(bs, ops))
    ensures Returns(bs, ops) == EntryReturns(View(bs), ops, RunFits(bs, ops))
    decreases |ops|
  {
    hide Step, StepEntries, FitsOf, View, Sound;
    if ops != [] {
      StepRefines(bs, ops[0]);
      RunRefines(Step(bs, ops[0]).bs, ops[1..]);
      assert RunFits(bs, ops)[1..] == RunFits(Step(bs, ops[0]).bs, ops[1..]);
    }
  }

  /** The same for the bytes of a file. */
  lemma RunFileDecodes(img: seq<byte>, ops: seq<Op>)
    requires Valid(img)
    ensures Valid(RunFile(img, ops)) && Sound(Playlists(img))
    ensures Decode(RunFile(img, ops))
         == RunEntries(Decode(img), ops, RunFits(Playlists(img), ops))
    ensures Returns(Playlists(img), ops)
         == EntryReturns(Decode(img), ops, RunFits(Playlists(img), ops))
  {
    hide RunFile, Run, RunFits, RunEntries, Returns, EntryReturns, View, Valid, Sound, Playlists;
    ValidIsSound(img);
    RunFileIsValid(img, ops);
    RunRefines(Playlists(img), ops);
  }

  // ---------- Every path is in ".global" ----------

  /** ".global" is first in the file and contains every path of every playlist. */
  ghost predicate GlobalHasAll(c: seq<Entry>) {
    && c != [] && c[0].name == GLOBAL
    && forall k :: 0 <= k < |c| ==> c[k].paths <= c[0].paths
  }

  /** A new path that ".global" is refused for size and the named playlist is not. */
  predicate Misses(c: seq<Entry>, plist: CString, path: Path, globalFits: bool, fits: bool) {
    && plist != GLOBAL && !globalFits && fits
    && c != [] && path !in c[0].paths && Lookup(c, plist).Some?
  }

  /** An addition keeps containment exactly unless ".global" misses the path. */
  lemma AddKeepsGlobal(c: seq<Entry>, plist: CString, path: Path, globalFits: bool, fits: bool)
    requires GlobalHasAll(c)
    ensures GlobalHasAll(AddEntry(c, plist, path, globalFits, fits).entries) <==>
            !Misses(c, plist, path, globalFits, fits)
  {
    assert Lookup(c, GLOBAL) == Some(0);
    var r := AddEntry(c, plist, path, globalFits, fits);
    var d := if plist != GLOBAL then AddToEntry(c, 0, path, globalFits).entries else c;
    assert GlobalHasAll(d);
    LookupSame(c, d, plist);
    match Lookup(d, plist) {
      case None =>
      case Some(k) =>
        if r.ok && k != 0 {
          assert r.entries[0] == d[0];
          assert r.entries[k].paths == d[k].paths + {path};
        }
    }
  }

  lemma StartKeepsGlobal(c: seq<Entry>, name: CString, fits: bool)
    requires GlobalHasAll(c)
    ensures GlobalHasAll(StartEntry(c, name, fits).entries)
  {
  }

  /** When names are distinct, a deletion keeps containment exactly if it spares ".global". */
  lemma DeleteKeepsGlobal(c: seq<Entry>, name: CString)
    requires GlobalHasAll(c)
    ensures name != GLOBAL ==> GlobalHasAll(DeleteEntry(c, name).entries)
    ensures DistinctNames(c) && GlobalHasAll(DeleteEntry(c, name).entries) ==> name != GLOBAL
  {
    var r := DeleteEntry(c, name);
    if name != GLOBAL && Lookup(c, name).Some? {
      assert Lookup(c, name).value != 0;
    }
    if name == GLOBAL && DistinctNames(c) {
      assert Lookup(c, name) == Some(0);
      assert forall k :: 0 <= k < |r.entries| ==> r.entries[k] == c[k + 1];
    }
  }

  /** No addition of the run makes ".global" miss a path. */
  ghost predicate NeverMisses(c: seq<Entry>, ops: seq<Op>, fs: seq<Fits>)
    requires |fs| == |ops|
    decreases |ops|
  {
    ops == [] || (
      && (ops[0].AddOp? ==> !Misses(c, ops[0].plist, ops[0].path, fs[0].global, fs[0].target))
      && NeverMisses(StepEntries(c, ops[0], fs[0]).entries, ops[1..], fs[1..]))
  }

  /** Containment holds at the start, after every operation and at the end of the run. */
  ghost predicate GlobalHasAllThroughout(c: seq<Entry>, ops: seq<Op>, fs: seq<Fits>)
    requires |fs| == |ops|
    decreases |ops|
  {
    && GlobalHasAll(c)
    && (ops == [] || GlobalHasAllThroughout(StepEntries(c, ops[0], fs[0]).entries, ops[1..], fs[1..]))
  }

  /** A run that spares ".global" keeps containment throughout exactly if it never misses a path. */
  lemma {:induction false} RunKeepsGlobal(c: seq<Entry>, ops: seq<Op>, fs: seq<Fits>)
    requires |fs| == |ops| && GlobalHasAll(c) && DeleteOp(GLOBAL) !in ops
    ensures GlobalHasAllThroughout(c, ops, fs) <==> NeverMisses(c, ops, fs)
    ensures NeverMisses(c, ops, fs) ==> GlobalHasAll(RunEntries(c, ops, fs))
    ensures (forall i :: 0 <= i < |fs| ==> fs[i].global) ==> NeverMisses(c, ops, fs)
    decreases |ops|
  {
    hide GlobalHasAll, StartEntry, AddEntry, DeleteEntry;
    if ops != [] {
      var d := StepEntries(c, ops[0], fs[0]).entries;
      match ops[0] {
        case StartOp(name) => StartKeepsGlobal(c, name, fs[0].target);
        case AddOp(plist, path) => AddKeepsGlobal(c, plist, path, fs[0].global, fs[0].target);
        case DeleteOp(name) => DeleteKeepsGlobal(c, name);
      }
      if GlobalHasAll(d) {
        RunKeepsGlobal(d, ops[1..], fs[1..]);
      } else {
        assert !GlobalHasAllThroughout(d, ops[1..], fs[1..]);
      }
    }
  }

  /**
    For a run from a fresh library that spares ".global": containment holds throughout
    exactly if no path is missed, and then the file decodes to entries ".global" contains.
    No path is missed when ".global" is never refused for size.
   */
  lemma CreatedRunKeepsGlobal(img: seq<byte>, ops: seq<Op>)
    requires Valid(img) && Playlists(img) == Created() && DeleteOp(GLOBAL) !in ops
    ensures Valid(RunFile(img, ops))
    ensures var c, fs := Decode(img), RunFits(Created(), ops);
            && (GlobalHasAllThroughout(c, ops, fs) <==> NeverMisses(c, ops, fs))
            && (NeverMisses(c, ops, fs) ==> GlobalHasAll(Decode(RunFile(img, ops))))
            && ((forall i :: 0 <= i < |ops| ==> fs[i].global) ==> NeverMisses(c, ops, fs))
  {
    hide Created, RunFile, RunFits, RunEntries, Returns, EntryReturns, View, Valid, Sound, NeverMisses;
    CreatedView();
    RunFileDecodes(img, ops);
    RunKeepsGlobal(Decode(img), ops, RunFits(Created(), ops));
  }

  // ---------- Without ".global" ----------

  /** The entry is as it was in `c`, or was started by the run and has no paths. */
  ghost predicate OldOrStarted(e: Entry, c: seq<Entry>, ops: seq<Op>) {
    e in c || (e.paths == {} && exists n :: StartOp(n) in ops && e.name == Stored(n))
  }

  lemma StepWithoutGlobal(c: seq<Entry>, op: Op, f: Fits)
    requires Lookup(c, GLOBAL).None? && op != StartOp(GLOBAL)
    ensures var d := StepEntries(c, op, f).entries;
            && Lookup(d, GLOBAL).None?
            && forall e :: e in d ==> OldOrStarted(e, c, [op])
  {
    hide AddToEntry;
    var d := StepEntries(c, op, f).entries;
    match op
    case StartOp(name) =>
      assert op in [op];
      if |name| >= PLIST_NAME_LEN { assert |Stored(name)| != |GLOBAL|; }
    case AddOp(plist, path) =>
      assert d == c;
    case DeleteOp(name) =>
  }

  /**
    Once ".global" is gone it stays gone until it is started again, and meanwhile nothing
    can be added: the library only loses entries and gains empty ones.
   */
  lemma {:induction false} RunWithoutGlobal(c: seq<Entry>, ops: seq<Op>, fs: seq<Fits>)
    requires |fs| == |ops| && Lookup(c, GLOBAL).None? && StartOp(GLOBAL) !in ops
    ensures var r := RunEntries(c, ops, fs);
            && Lookup(r, GLOBAL).None?
            && forall e :: e in r ==> OldOrStarted(e, c, ops)
    decreases |ops|
  {
    hide Lookup, StepEntries, Stored;
    if ops != [] {
      var d := StepEntries(c, ops[0], fs[0]).entries;
      StepWithoutGlobal(c, ops[0], fs[0]);
      RunWithoutGlobal(d, ops[1..], fs[1..]);
      forall e | e in RunEntries(c, ops, fs) ensures OldOrStarted(e, c, ops) {
        assert OldOrStarted(e, d, ops[1..]);
        if e in d {
          assert OldOrStarted(e, c, [ops[0]]);
        }
      }
    }
  }

  /** The same for the bytes of a file. */
  lemma FileWithoutGlobal(img: seq<byte>, ops: seq<Op>)
    requires Valid(img) && Lookup(Decode(img), GLOBAL).None? && StartOp(GLOBAL) !in ops
    ensures Valid(RunFile(img, ops))
    ensures Lookup(Decode(RunFile(img, ops)), GLOBAL).None?
    ensures forall e :: e in Decode(RunFile(img, ops)) ==> OldOrStarted(e, Decode(img), ops)
  {
    hide RunFile, RunFits, RunEntries, Returns, EntryReturns, View, Valid, Sound, Playlists;
    hide OldOrStarted;
    RunFileDecodes(img, ops);
    RunWithoutGlobal(Decode(img), ops, RunFits(Playlists(img), ops));
  }

  // ---------- Names ----------

  /**
    Starting a playlist keeps names distinct unless the name was cut to 115 bytes and
    the cut name is taken: the search compares the whole name, the store cuts it.
   */
  lemma StartDistinct(c: seq<Entry>, name: CString, fits: bool)
    requires DistinctNames(c)
    ensures DistinctNames(StartEntry(c, name, fits).entries) <==>
            !(fits && |name| >= PLIST_NAME_LEN && Lookup(c, name).None? && Lookup(c, Stored(name)).Some?)
    ensures |name| < PLIST_NAME_LEN ==> DistinctNames(StartEntry(c, name, fits).entries)
  {
    var r := StartEntry(c, name, fits);
    if r.ok {
      assert r.entries[|c|].name == Stored(name);
      if Lookup(c, Stored(name)).Some? {
        assert r.entries[Lookup(c, Stored(name)).value].name == Stored(name);
      }
    }
  }

  lemma AddNames(c: seq<Entry>, plist: CString, path: Path, globalFits: bool, fits: bool)
    ensures var r := AddEntry(c, plist, path, globalFits, fits).entries;
            |r| == |c| && forall k :: 0 <= k < |c| ==> r[k].name == c[k].name
  {
  }

  /** All names given to new playlists fit the name field. */
  ghost predicate ShortNames(ops: seq<Op>) {
    forall i :: 0 <= i < |ops| && ops[i].StartOp? ==> |ops[i].name| < PLIST_NAME_LEN
  }

  lemma {:induction false} RunDistinct(c: seq<Entry>, ops: seq<Op>, fs: seq<Fits>)
    requires |fs| == |ops| && DistinctNames(c) && ShortNames(ops)
    ensures DistinctNames(RunEntries(c, ops, fs))
    decreases |ops|
  {
    hide StartEntry, AddEntry;
    if ops != [] {
      match ops[0] {
        case StartOp(name) => StartDistinct(c, name, fs[0].target);
        case AddOp(plist, path) => AddNames(c, plist, path, fs[0].global, fs[0].target);
        case DeleteOp(name) =>
      }
      assert ShortNames(ops[1..]);
      RunDistinct(StepEntries(c, ops[0], fs[0]).entries, ops[1..], fs[1..]);
    }
  }

  /** With short names, a run from a fresh library keeps names distinct, so a lookup is unique. */
  lemma CreatedRunLookup(img: seq<byte>, ops: seq<Op>, name: CString, k: nat)
    requires Valid(img) && Playlists(img) == Created() && ShortNames(ops)
    requires k < |Playlists(RunFile(img, ops))|
    ensures Valid(RunFile(img, ops)) && Sound(Playlists(RunFile(img, ops)))
    ensures var bs := Playlists(RunFile(img, ops));
            Find(bs, name) == Some(k) <==> Name(bs[k]) == name
  {
    hide RunFile, RunFits, RunEntries, Returns, EntryReturns, Valid, Playlists, Created;
    hide WellFormed, View, Lookup, EntryOf;
    CreatedView();
    RunFileDecodes(img, ops);
    ValidIsSound(RunFile(img, ops));
    RunDistinct(Decode(img), ops, RunFits(Created(), ops));
    var bs := Playlists(RunFile(img, ops));
    FindRefines(bs, name);
    ViewNames(bs);
    LookupIsUnique(View(bs), name, k);
  }

  lemma ViewNames(bs: seq<seq<byte>>)
    requires Sound(bs)
    ensures forall k :: 0 <= k < |bs| ==> PLIST_STRUCT_SIZE <= |bs[k]| && View(bs)[k].name == Name(bs[k])
  {
    hide Packed, Words, Get32, Paths, StringAt;
  }

  lemma LookupIsUnique(c: seq<Entry>, name: CString, k: nat)
    requires DistinctNames(c) && k < |c|
    ensures Lookup(c, name) == Some(k) <==> c[k].name == name
  {
  }

  /** A name of 116 bytes. */
  function LongName(): CString {
    seq(PLIST_NAME_LEN, _ => 0x41)
  }

  /** Starting it twice succeeds twice and leaves two playlists of the same name. */
  lemma LongNamesCollide()
    ensures var bs := Run(Created(), [StartOp(LongName()), StartOp(LongName())]);
            |bs| == 3 && Name(bs[1]) == Name(bs[2])
  {
    hide FreshPlaylist, StringAt, Packed, Words, Get32;
    var n, f, g := LongName(), FreshPlaylist(LongName()), FreshPlaylist(GLOBAL);
    FreshPlaylistContents(n);
    FreshPlaylistContents(GLOBAL);
    AppendTotal([], g);
    AppendTotal([g], f);
    assert [] + [g] == [g];
    var ops := [StartOp(n), StartOp(n)];
    assert Step(Created(), ops[0]).bs == [g, f];
    assert Step([g, f], ops[1]).bs == [g, f, f];
    assert ops[1..] == [StartOp(n)] && ops[1..][1..] == [];
    assert Run([g, f, f], []) == [g, f, f];
  }
}
