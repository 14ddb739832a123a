/**
  Short runs from a fresh library in which ".global" and the other playlists part ways.
 */
module Examples {
  import opened Bytes
  import opened Strings
  import opened Packing
  import opened Block
  import opened Growth
  import opened Image
  import opened Operations
  import opened Catalog
  import opened Runs
  import opened Space

  /** The playlist name "a". */
  const A: CString := [0x61]

  /** The path "x". */
  const X: Path := [0x78]

  /** A path so long that it leaves no room for another round of growth. */
  function HugePath(): (p: Path)
    ensures |p| + 1 == GROWTH_RATE * 33554418 + 235
  {
    seq(GROWTH_RATE * 33554418 + 234, _ => 0x61)
  }

  /** Any two bytes fit a fresh bucket, however full the file. */
  lemma FreshNeedsNothing(name: CString)
    ensures WellFormed(FreshPlaylist(name)) && Need(FreshPlaylist(name), 2) == 0
  {
    hide FreshPlaylist;
    FreshPlaylistContents(name);
  }

  // ---------- A failed addition that has added ----------

  /** Adding to a playlist that does not exist fails, and ".global" has the path. */
  lemma FailedAddReachesGlobal()
    ensures var r := Step(Created(), AddOp(A, X));
            !r.ok && View(r.bs) == [Entry(GLOBAL, {X})]
  {
    hide Created, Step, View, FitsOf, AddEntry, Sound;
    CreatedView();
    CreatedHasRoom();
    StepRefines(Created(), AddOp(A, X));
    AddedToGlobalOnly(FitsOf(Created(), AddOp(A, X)).target);
  }

  lemma CreatedHasRoom()
    ensures FitsOf(Created(), AddOp(A, X)).global
  {
    hide FreshPlaylist, TargetHasRoom, Packed, Words, Get32, StringAt, TotalLength;
    FreshNeedsNothing(GLOBAL);
  }

  lemma AddedToGlobalOnly(fits: bool)
    ensures AddEntry([Entry(GLOBAL, {})], A, X, true, fits) == Outcome([Entry(GLOBAL, {X})], false)
  {
    var c := [Entry(GLOBAL, {})];
    assert A != GLOBAL && Lookup(c, GLOBAL) == Some(0);
    var d := AddToEntry(c, 0, X, true).entries;
    assert c[0].paths + {X} == {X};
    assert d == [Entry(GLOBAL, {X})];
    assert Lookup(d, A).None?;
  }

  // ---------- A path that ".global" misses ----------

  /** ".global" takes the huge path, and one byte of it and no round of growth are left. */
  lemma FullGlobal()
    ensures var g := FreshPlaylist(GLOBAL);
            && WellFormed(g) && |g| == FRESH_SIZE
            && var r := AddPath(g, HugePath(), HEADER_SIZE + 2 * FRESH_SIZE);
            && r.ok && WellFormed(r.block) && Name(r.block) == GLOBAL && Paths(r.block) == [HugePath()]
            && |r.block| == FRESH_SIZE + GROWTH_RATE * 33554419 && Gap(r.block) == 1
  {
    hide FreshPlaylist, AddPath, HugePath, Packed, Words, Get32, StringAt, Paths;
    var g, total := FreshPlaylist(GLOBAL), HEADER_SIZE + 2 * FRESH_SIZE;
    FreshPlaylistContents(GLOBAL);
    assert Need(g, |HugePath()| + 1) == 33554419 == Room(total);
    AddPathEffect(g, HugePath(), total);
    AddPathLength(g, HugePath(), total);
    PlaylistLength(AddPath(g, HugePath(), total).block);
  }

  /** With such a ".global" and a fresh playlist, the file has no room for "x" in ".global". */
  lemma FullGlobalRefuses(c: seq<byte>)
    requires WellFormed(c) && Name(c) == GLOBAL && Paths(c) == [HugePath()]
    requires |c| == FRESH_SIZE + GROWTH_RATE * 33554419 && Gap(c) == 1
    ensures var bs := [c, FreshPlaylist(A)];
            && Sound(bs) && Room(TotalLength(bs)) == 0
            && X !in Paths(c) && Need(c, 2) == 1
  {
    hide FreshPlaylist, HugePath, Packed, Words, Get32, StringAt, Paths, Name;
    FreshPlaylistContents(A);
    AppendTotal([], c);
    AppendTotal([c], FreshPlaylist(A));
    assert [] + [c] == [c] && [c] + [FreshPlaylist(A)] == [c, FreshPlaylist(A)];
  }

  lemma OnlyTargetHasRoom(bs: seq<seq<byte>>)
    requires Sound(bs) && |bs| == 2 && Name(bs[0]) == GLOBAL && Name(bs[1]) == A
    requires X !in Paths(bs[0]) && Need(bs[0], 2) > Room(TotalLength(bs)) && Need(bs[1], 2) == 0
    ensures FitsOf(bs, AddOp(A, X)) == Fits(false, true)
  {
    hide Get32, Packed, Words, Paths, Name, TotalLength, AddPath, Need;
    assert A != GLOBAL && Find(bs, GLOBAL) == Some(0);
    var cs := AfterGlobal(bs, A, X);
    OffsetNext(bs, 0);
    AddPathEffect(bs[0], X, TotalLength(bs));
    assert Name(cs[0]) == GLOBAL && cs[1] == bs[1];
    assert Find(cs, A) == Some(1);
  }

  /** Then adding "x" to the other playlist makes ".global" miss it. */
  lemma TargetTakesPath(bs: seq<seq<byte>>)
    requires Sound(bs) && |bs| == 2 && Name(bs[0]) == GLOBAL && Name(bs[1]) == A
    requires X !in Paths(bs[0]) && Paths(bs[1]) == []
    requires FitsOf(bs, AddOp(A, X)) == Fits(false, true)
    ensures !GlobalHasAll(View(Step(bs, AddOp(A, X)).bs))
  {
    hide FitsOf, Step, AddEntry, Get32, Packed, Words, Paths, Name, TotalLength;
    StepRefines(bs, AddOp(A, X));
    assert A != GLOBAL && View(bs)[1] == Entry(A, {});
    AddKeepsGlobal(View(bs), A, X, false, true);
  }

  lemma RunOneMore(bs: seq<seq<byte>>, op: Op, ops: seq<Op>)
    requires Sound(bs)
    ensures Run(bs, [op] + ops) == Run(Step(bs, op).bs, ops)
  {
    hide Step, Sound;
    assert ([op] + ops)[1..] == ops;
  }

  lemma RunOfThree(bs: seq<seq<byte>>, a: Op, b: Op, c: Op)
    requires Sound(bs)
    ensures Run(bs, [a, b, c]) == Step(Step(Step(bs, a).bs, b).bs, c).bs
  {
    hide Step, Sound, Run;
    var d := Step(Step(bs, a).bs, b).bs;
    assert [a, b, c] == [a] + [b, c] && [b, c] == [b] + [c] && [c] == [c] + [];
    RunOneMore(bs, a, [b, c]);
    RunOneMore(Step(bs, a).bs, b, [c]);
    RunOneMore(d, c, []);
    RunNothing(Step(d, c).bs);
  }

  lemma RunNothing(bs: seq<seq<byte>>)
    requires Sound(bs)
    ensures Run(bs, []) == bs
  {
    hide Sound;
  }

  lemma HugeStep()
    ensures var g, a := FreshPlaylist(GLOBAL), FreshPlaylist(A);
            && Sound([g, a]) && Step(Created(), StartOp(A)).bs == [g, a]
            && |g| <= HEADER_SIZE + 2 * FRESH_SIZE
            && WellFormed(g)
            && var c := AddPath(g, HugePath(), HEADER_SIZE + 2 * FRESH_SIZE).block;
            Step([g, a], AddOp(GLOBAL, HugePath())).bs == [c, a]
  {
    hide FreshPlaylist, HugePath, Packed, Words, Get32, StringAt, Paths, AddPath;
    var g, a := FreshPlaylist(GLOBAL), FreshPlaylist(A);
    FreshPlaylistContents(GLOBAL);
    FreshPlaylistContents(A);
    AppendTotal([], g);
    AppendTotal([g], a);
    assert [] + [g] == [g] && [g] + [a] == [g, a];
    assert Step(Created(), StartOp(A)).bs == [g, a];
    assert Find([g, a], GLOBAL) == Some(0);
  }

  /**
    A path that fills the file but for a few bytes goes to ".global"; the next path fits
    the fresh playlist it is added to, and ".global" misses it.
   */
  lemma GlobalMissesPath()
    ensures var ops := [StartOp(A), AddOp(GLOBAL, HugePath()), AddOp(A, X)];
            !GlobalHasAll(View(Run(Created(), ops)))
  {
    hide FreshPlaylist, HugePath, AddPath, Created, Step, FitsOf, View, Name, Paths, TotalLength, Sound;
    hide GlobalHasAll, Packed, Words, Get32, Run;
    var g, a := FreshPlaylist(GLOBAL), FreshPlaylist(A);
    HugeStep();
    FullGlobal();
    var c := AddPath(g, HugePath(), HEADER_SIZE + 2 * FRESH_SIZE).block;
    FullGlobalRefuses(c);
    FreshPlaylistContents(A);
    FreshNeedsNothing(A);
    OnlyTargetHasRoom([c, a]);
    TargetTakesPath([c, a]);
    RunOfThree(Created(), StartOp(A), AddOp(GLOBAL, HugePath()), AddOp(A, X));
  }
}
