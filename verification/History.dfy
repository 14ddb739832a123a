/**
  What a library holds after a run, told from the calls and their result codes alone.
 */
module History {
  import opened Bytes
  import opened Strings
  import opened Packing
  import opened Block
  import opened Growth
  import opened Image
  import opened Operations
  import opened Catalog
  import opened Runs
  import opened RoundTrip
  import opened Space

  // ---------- The last call of a run ----------

  /** A new name that fits the field and for which there is room: started and deleted, it leaves no trace. */
  lemma StartThenDelete(bs: seq<seq<byte>>, name: CString)
    requires Sound(bs) && |name| < PLIST_NAME_LEN
    requires Find(bs, name).None? && TotalLength(bs) + FRESH_SIZE < LIMIT32
    ensures Run(bs, [StartOp(name), DeleteOp(name)]) == bs
    ensures Returns(bs, [StartOp(name), DeleteOp(name)]) == [0, 0]
  {
    hide FreshPlaylist, Name, TotalLength, Run, Returns, Delete, Sound;
    var cs := Start(bs, name).bs;
    StartFillDelete(bs, name, []);
    assert AddAll(cs, |bs|, []) == cs;
    assert [StartOp(name), DeleteOp(name)] == [StartOp(name)] + [DeleteOp(name)];
    RunConcat(bs, [StartOp(name)], [DeleteOp(name)]);
    ReturnsConcat(bs, [StartOp(name)], [DeleteOp(name)]);
    RunOne(bs, StartOp(name));
    RunOne(cs, DeleteOp(name));
  }

  lemma StartThenDeleteFile(img: seq<byte>, name: CString)
    requires Valid(img) && |name| < PLIST_NAME_LEN
    requires Lookup(Decode(img), name).None? && |img| + FRESH_SIZE < LIMIT32
    ensures RunFile(img, [StartOp(name), DeleteOp(name)]) == img
  {
    hide Playlists, Run, Find, Lookup, View, Get32, WellFormed;
    ValidIsSound(img);
    FindRefines(Playlists(img), name);
    StartThenDelete(Playlists(img), name);
    HoldsTotal(img, Playlists(img));
  }

  /** The last call of a run, as a call on what the rest of the run left. */
  lemma LastMeans(bs: seq<seq<byte>>, ops: seq<Op>, op: Op)
    requires Sound(bs)
    ensures var cs := Run(bs, ops);
            && |Returns(bs, ops + [op])| == |ops| + 1
            && Means(View(cs), op, FitsOf(cs, op), View(Run(bs, ops + [op])), Returns(bs, ops + [op])[|ops|] == 0)
  {
    hide Step, FitsOf, Sound, View, Run, Returns, RunFits, Means;
    RunConcat(bs, ops, [op]);
    ReturnsConcat(bs, ops, [op]);
    RunOne(Run(bs, ops), op);
    StepMeans(Run(bs, ops), op);
  }

  /** After a run that ends by starting a playlist under a short name, that name is found, and empty. */
  lemma LastStart(bs: seq<seq<byte>>, ops: seq<Op>, name: CString)
    requires Sound(bs) && |name| < PLIST_NAME_LEN
    ensures var cs, ds := Run(bs, ops), Run(bs, ops + [StartOp(name)]);
            && |Returns(bs, ops + [StartOp(name)])| == |ops| + 1
            && (Returns(bs, ops + [StartOp(name)])[|ops|] == 0 <==>
                  Find(cs, name).None? && TotalLength(cs) + FRESH_SIZE < LIMIT32)
            && (Returns(bs, ops + [StartOp(name)])[|ops|] == 0 ==>
                  Find(ds, name) == Some(|cs|) && |ds| == |cs| + 1 && View(ds)[|cs|] == Entry(name, {}))
  {
    hide Sound, View, Run, Returns, Lookup, Find, TotalLength, HasName;
    var cs, ds := Run(bs, ops), Run(bs, ops + [StartOp(name)]);
    LastMeans(bs, ops, StartOp(name));
    FindRefines(cs, name);
    FindRefines(ds, name);
    HasNameIsLookup(View(cs), name);
    if Returns(bs, ops + [StartOp(name)])[|ops|] == 0 {
      StartedIsFound(View(cs), name, StartHasRoom(cs, name), View(ds));
    }
  }

  /** After a run that ends with a successful addition, the named playlist has the path. */
  lemma LastAdd(bs: seq<seq<byte>>, ops: seq<Op>, plist: CString, path: Path)
    requires Sound(bs)
    ensures var ds := Run(bs, ops + [AddOp(plist, path)]);
            && |Returns(bs, ops + [AddOp(plist, path)])| == |ops| + 1
            && (Returns(bs, ops + [AddOp(plist, path)])[|ops|] == 0 ==>
                  Find(ds, plist).Some? && path in View(ds)[Find(ds, plist).value].paths)
  {
    hide Sound, View, Run, Returns, Lookup, Find, FitsOf, Gains;
    var cs, ds := Run(bs, ops), Run(bs, ops + [AddOp(plist, path)]);
    LastMeans(bs, ops, AddOp(plist, path));
    LookupSame(View(cs), View(ds), plist);
    FindRefines(ds, plist);
  }

  /** With distinct names, after a run that ends by deleting a playlist, its name is not found. */
  lemma LastDelete(bs: seq<seq<byte>>, ops: seq<Op>, name: CString)
    requires Sound(bs) && DistinctNames(View(Run(bs, ops)))
    ensures var cs, ds := Run(bs, ops), Run(bs, ops + [DeleteOp(name)]);
            && |Returns(bs, ops + [DeleteOp(name)])| == |ops| + 1
            && (Returns(bs, ops + [DeleteOp(name)])[|ops|] == 0 <==> Find(cs, name).Some?)
            && Find(ds, name).None? && View(ds) == Others(View(cs), name)
  {
    hide Sound, View, Run, Returns, Lookup, Find, FitsOf, DistinctNames, Others, Named, HasName;
    var cs, ds := Run(bs, ops), Run(bs, ops + [DeleteOp(name)]);
    LastMeans(bs, ops, DeleteOp(name));
    HasNameIsLookup(View(cs), name);
    FindRefines(cs, name);
    FindRefines(ds, name);
    DeletedIsGone(View(cs), name, View(ds), Lookup(View(cs), name).Some?, Entry(name, {}));
  }

  // ---------- What the calls reported is what the library holds ----------

  /** The playlist of that name exists and has the path. */
  predicate Has(c: seq<Entry>, name: CString, path: CString) {
    Lookup(c, name).Some? && path in c[Lookup(c, name).value].paths
  }

  /**
    Whether playlist `name` has `path` after a run, told from whether it had it before
    and what the calls returned: an addition that returned 0 puts it there, a deletion
    of the playlist takes it away, and no other call matters.
   */
  function Remembered(had: bool, ops: seq<Op>, rets: seq<int>, name: CString, path: CString): bool
    requires |rets| == |ops|
    decreases |ops|
  {
    if ops == [] then had
    else
      var has := if ops[0] == DeleteOp(name) then false
                 else had || (ops[0].AddOp? && ops[0].plist == name && ops[0].path == path && rets[0] == 0);
      Remembered(has, ops[1..], rets[1..], name, path)
  }

  lemma StartRemembered(c: seq<Entry>, started: CString, fits: bool, d: seq<Entry>, ok: bool,
                        name: CString, path: CString)
    requires DistinctNames(c) && PlaylistStarted(c, started, fits, d, ok) && |started| < PLIST_NAME_LEN
    ensures DistinctNames(d) && (Has(d, name, path) <==> Has(c, name, path))
  {
  }

  lemma AddRemembered(c: seq<Entry>, plist: CString, added: Path, globalFits: bool, fits: bool,
                      d: seq<Entry>, ok: bool, name: CString, path: CString)
    requires DistinctNames(c) && PathAdded(c, plist, added, globalFits, fits, d, ok) && name != GLOBAL
    ensures DistinctNames(d)
    ensures Has(d, name, path) <==> Has(c, name, path) || (plist == name && added == path && ok)
  {
    hide Lookup;
    LookupSame(c, d, name);
  }

  lemma DeleteRemembered(c: seq<Entry>, deleted: CString, d: seq<Entry>, ok: bool, name: CString, path: CString)
    requires DistinctNames(c) && PlaylistDeleted(c, deleted, d, ok)
    ensures DistinctNames(d) && (Has(d, name, path) <==> Has(c, name, path) && deleted != name)
  {
    hide Lookup, Named, Others, PlaylistDeleted, DistinctNames;
    HasIsEntry(c, name, path);
    DeletedIsGone(c, deleted, d, ok, Entry(deleted, {}));
    forall e: Entry ensures e.name != deleted ==> (e in d <==> e in c) {
      DeletedIsGone(c, deleted, d, ok, e);
    }
    HasIsEntry(d, name, path);
  }

  lemma HasIsEntry(c: seq<Entry>, name: CString, path: CString)
    requires DistinctNames(c)
    ensures Has(c, name, path) <==> exists e :: e in c && e.name == name && path in e.paths
  {
  }

  /**
    For every run with short new names, and every playlist but ".global": a path is in the
    playlist at the end exactly if the calls and their result codes say so.
   */
  lemma {:induction false} RunRemembers(bs: seq<seq<byte>>, ops: seq<Op>, name: CString, path: CString)
    requires Sound(bs) && DistinctNames(View(bs)) && ShortNames(ops) && name != GLOBAL
    ensures Has(View(Run(bs, ops)), name, path)
       <==> Remembered(Has(View(bs), name, path), ops, Returns(bs, ops), name, path)
    decreases |ops|
  {
    hide Sound, View, Step, FitsOf, Has, PlaylistStarted, PathAdded, PlaylistDeleted, DistinctNames;
    if ops != [] {
      var c, op, f, r := View(bs), ops[0], FitsOf(bs, ops[0]), Step(bs, ops[0]);
      StepMeans(bs, op);
      match op {
        case StartOp(started) =>
          StartRemembered(c, started, f.target, View(r.bs), r.ok, name, path);
        case AddOp(plist, added) =>
          AddRemembered(c, plist, added, f.global, f.target, View(r.bs), r.ok, name, path);
        case DeleteOp(deleted) =>
          DeleteRemembered(c, deleted, View(r.bs), r.ok, name, path);
      }
      assert ShortNames(ops[1..]);
      RunRemembers(r.bs, ops[1..], name, path);
    }
  }

  /** The same for the file: it holds what the calls reported, however much of it they were refused. */
  lemma FileRemembers(img: seq<byte>, ops: seq<Op>, name: CString, path: CString)
    requires Valid(img) && DistinctNames(Decode(img)) && ShortNames(ops) && name != GLOBAL
    ensures Valid(RunFile(img, ops)) && Sound(Playlists(img))
    ensures Has(Decode(RunFile(img, ops)), name, path)
       <==> Remembered(Has(Decode(img), name, path), ops, Returns(Playlists(img), ops), name, path)
  {
    hide RunFile, Run, Returns, View, Valid, Sound, Playlists, Has, DistinctNames, Remembered;
    ValidIsSound(img);
    RunFileIsValid(img, ops);
    RunRemembers(Playlists(img), ops, name, path);
  }

  // ---------- ".global" remembers every addition ----------

  ghost predicate EverAdded(ops: seq<Op>, path: Path) {
    exists plist :: AddOp(plist, path) in ops
  }

  /** The names are distinct, and ".global" is one of them. */
  ghost predicate GlobalThere(c: seq<Entry>) {
    DistinctNames(c) && Lookup(c, GLOBAL).Some?
  }

  lemma StepGlobalRemembers(c: seq<Entry>, op: Op, d: seq<Entry>, ok: bool, path: Path)
    requires GlobalThere(c) && ShortNames([op]) && op != DeleteOp(GLOBAL)
    requires Means(c, op, Fits(true, true), d, ok)
    ensures GlobalThere(d)
    ensures Has(d, GLOBAL, path) <==> Has(c, GLOBAL, path) || EverAdded([op], path)
  {
    hide Lookup, Named, Others, PlaylistDeleted, DistinctNames, HasName;
    match op
    case StartOp(started) =>
      assert [op][0] == op;
      StartRemembered(c, started, true, d, ok, GLOBAL, path);
      StartKeepsName(c, started, true, d, ok, GLOBAL);
    case AddOp(plist, added) =>
      assert op in [op];
      LookupSame(c, d, GLOBAL);
      assert DistinctNames(d) by { AddKeepsDistinct(c, plist, added, d, ok); }
    case DeleteOp(deleted) =>
      DeleteRemembered(c, deleted, d, ok, GLOBAL, path);
      DeleteKeepsName(c, deleted, d, ok, GLOBAL);
  }

  lemma AddKeepsDistinct(c: seq<Entry>, plist: CString, path: Path, d: seq<Entry>, ok: bool)
    requires DistinctNames(c) && PathAdded(c, plist, path, true, true, d, ok)
    ensures DistinctNames(d)
  {
    hide Lookup, Gains;
  }

  lemma StartKeepsName(c: seq<Entry>, started: CString, fits: bool, d: seq<Entry>, ok: bool, name: CString)
    requires PlaylistStarted(c, started, fits, d, ok) && Lookup(c, name).Some?
    ensures Lookup(d, name).Some?
  {
    assert d[Lookup(c, name).value] == c[Lookup(c, name).value];
  }

  lemma DeleteKeepsName(c: seq<Entry>, deleted: CString, d: seq<Entry>, ok: bool, name: CString)
    requires PlaylistDeleted(c, deleted, d, ok) && Lookup(c, name).Some? && name != deleted
    ensures Lookup(d, name).Some?
  {
    hide PlaylistDeleted, Lookup;
    HasNameIsLookup(c, name);
    HasNameIsLookup(d, name);
    var e := c[Lookup(c, name).value];
    DeletedIsGone(c, deleted, d, ok, e);
  }

  /**
    While nothing is refused for size and ".global" is spared, it has a path at the end
    exactly if it had it before or some call of the run was to add it, to any playlist,
    whatever the call returned.
   */
  lemma {:induction false} GlobalRemembers(bs: seq<seq<byte>>, ops: seq<Op>, path: Path)
    requires Sound(bs) && GlobalThere(View(bs)) && ShortNames(ops) && DeleteOp(GLOBAL) !in ops
    requires forall i :: 0 <= i < |ops| ==> RunFits(bs, ops)[i] == Fits(true, true)
    ensures Has(View(Run(bs, ops)), GLOBAL, path) <==> Has(View(bs), GLOBAL, path) || EverAdded(ops, path)
    decreases |ops|
  {
    hide Sound, View, Step, FitsOf, Has, Means, GlobalThere;
    if ops != [] {
      var op, r := ops[0], Step(bs, ops[0]);
      var fs := RunFits(r.bs, ops[1..]);
      assert RunFits(bs, ops)[0] == FitsOf(bs, op);
      assert forall i :: 0 <= i < |fs| ==> fs[i] == RunFits(bs, ops)[i + 1];
      StepMeans(bs, op);
      assert ShortNames(ops[1..]) && ShortNames([op]);
      StepGlobalRemembers(View(bs), op, View(r.bs), r.ok, path);
      GlobalRemembers(r.bs, ops[1..], path);
      assert ops == [op] + ops[1..];
    }
  }

  /**
    A fresh library, any run with short names that cannot fill 4 GB and spares ".global":
    in the file, ".global" has exactly the paths of the calls to add one.
   */
  lemma SmallRunGlobal(img: seq<byte>, ops: seq<Op>, path: Path)
    requires Valid(img) && Playlists(img) == Created() && ShortNames(ops) && DeleteOp(GLOBAL) !in ops
    requires |img| + TotalMost(ops) < LIMIT32
    ensures Valid(RunFile(img, ops))
    ensures Has(Decode(RunFile(img, ops)), GLOBAL, path) <==> EverAdded(ops, path)
  {
    hide RunFile, Run, Created, View, Valid, Sound, Playlists, EverAdded, TotalMost, Step;
    CreatedView();
    ValidIsSound(img);
    SmallRunsFit(Created(), ops);
    RunFileIsValid(img, ops);
    GlobalRemembers(Created(), ops, path);
  }
}
