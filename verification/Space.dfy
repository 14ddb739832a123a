/**
  How long a library file gets: what its paths need, and a bounded overhead.
 */
module Space {
  import opened Bytes
  import opened Strings
  import opened Packing
  import opened Block
  import opened Growth
  import opened Image
  import opened Operations
  import opened Catalog
  import opened Runs

  // ---------- What the paths need ----------

  /** Each path needs its bytes, a terminator and a word of index. */
  function Cost(ps: seq<CString>): nat {
    if ps == [] then 0 else |ps[0]| + 1 + 4 + Cost(ps[1..])
  }

  /** The cost of the strings at given offsets. */
  function CostAt(s: seq<byte>, offs: seq<nat>): nat {
    if offs == [] then 0 else |StringAt(s, offs[0])| + 1 + 4 + CostAt(s, offs[1..])
  }

  lemma {:induction false} CostOfStrings(s: seq<byte>, offs: seq<nat>)
    ensures Cost(StringsAt(s, offs)) == CostAt(s, offs)
  {
    if offs != [] {
      CostOfStrings(s, offs[1..]);
      assert StringsAt(s, offs)[1..] == StringsAt(s, offs[1..]);
    }
  }

  lemma {:induction false} CostAtConcat(s: seq<byte>, a: seq<nat>, b: seq<nat>)
    ensures CostAt(s, a + b) == CostAt(s, a) + CostAt(s, b)
  {
    if a == [] {
      assert a + b == b;
    } else {
      CostAtConcat(s, a[1..], b);
      assert (a + b)[1..] == a[1..] + b;
    }
  }

  lemma RemoveOne(a: seq<nat>, b: seq<nat>, j: nat)
    requires multiset(a) == multiset(b) && a != [] && j < |b| && b[j] == a[0]
    ensures multiset(a[1..]) == multiset(b[..j] + b[j + 1..])
  {
    assert a == [a[0]] + a[1..];
    assert b == b[..j] + [b[j]] + b[j + 1..];
    assert multiset(a[1..]) == multiset(a) - multiset{a[0]};
    assert multiset(b[..j] + b[j + 1..]) == multiset(b) - multiset{b[j]};
  }

  /** The order of the offsets does not matter. */
  lemma {:induction false} CostAtPermuted(s: seq<byte>, a: seq<nat>, b: seq<nat>)
    requires multiset(a) == multiset(b)
    ensures CostAt(s, a) == CostAt(s, b)
    decreases |a|
  {
    if a == [] {
      assert |multiset(b)| == |b|;
    } else {
      hide StringAt;
      assert a[0] in multiset(b);
      var j :| 0 <= j < |b| && b[j] == a[0];
      var rest := b[..j] + b[j + 1..];
      assert b == b[..j] + ([b[j]] + b[j + 1..]);
      CostAtConcat(s, b[..j], [b[j]] + b[j + 1..]);
      CostAtConcat(s, b[..j], b[j + 1..]);
      assert ([b[j]] + b[j + 1..])[1..] == b[j + 1..];
      RemoveOne(a, b, j);
      CostAtPermuted(s, a[1..], rest);
    }
  }

  /** Walking the packed strings consumes every byte. */
  lemma {:induction false} WalkCost(s: seq<byte>, o: nat)
    requires Terminated(s) && o <= |s|
    ensures CostAt(s, Starts(s, o)) == |s| - o + 4 * |Starts(s, o)|
    decreases |s| - o
  {
    if o < |s| {
      assert s[0..|s|] == s;
      StringAtWindow(s, 0, |s|, o);
      WalkCost(s, o + |StringAt(s, o)| + 1);
    }
  }

  /** In a sound bucket, string bytes and index words are exactly what the paths need. */
  lemma PathsCost(b: seq<byte>)
    requires BucketOk(b)
    ensures Cost(Paths(b)) == StrBytes(b) + 4 * Count(b)
  {
    hide Get32, Words, StringAt, CostAt, Starts;
    var s, offs := Strs(b), Indexes(b);
    CostOfStrings(s, offs);
    CostAtPermuted(s, offs, Starts(s, 0));
    WalkCost(s, 0);
    assert |multiset(offs)| == |offs| && |multiset(Starts(s, 0))| == |Starts(s, 0)|;
  }

  // ---------- The free gap ----------

  /** The free bytes between the strings and the index array. */
  function Gap(b: seq<byte>): nat
    requires Framed(b)
  {
    IndexOffs(b) - (BUCKET_STRINGS + StrBytes(b))
  }

  /** At most one round of growth is unused. */
  ghost predicate Tight(b: seq<byte>) {
    Framed(b) && 1 <= Gap(b) <= GROWTH_RATE
  }

  /** A playlist is 160 bytes of headers and tail, its gap, and what its paths need. */
  lemma PlaylistLength(b: seq<byte>)
    requires WellFormed(b)
    ensures |b| == 160 + Gap(b) + Cost(Paths(b))
  {
    hide Get32, Words, Paths, Packed;
    PathsCost(b);
  }

  lemma FreshIsTight(name: CString)
    ensures Tight(FreshPlaylist(name))
  {
    hide FreshPlaylist;
    FreshPlaylistContents(name);
  }

  lemma BucketAddTight(b: seq<byte>, path: Path, total: nat)
    requires BucketOk(b) && Tight(b) && |b| <= total < LIMIT32
    requires path in Paths(b) || Need(b, |path| + 1) <= Room(total)
    ensures Tight(BucketAdd(b, path, total).block)
  {
    hide Get32, Words, Paths, Packed, Expanded, AddString;
    var need := Need(b, |path| + 1);
    if path !in Paths(b) {
      var c := Expanded(b, need);
      ExpandedKeeps(b, need);
      SameContentsReads(b, c);
      NeedIsLeast(b, |path| + 1, need);
      AddStringContents(c, path);
      assert |Strs(AddString(c, path))| == |Strs(c) + path + [0]|;
    }
  }

  /** Growing only as far as needed leaves a tight bucket. */
  lemma AddPathTight(b: seq<byte>, path: Path, total: nat)
    requires WellFormed(b) && Tight(b) && |b| <= total < LIMIT32
    requires path in Paths(b) || Need(b, |path| + 1) <= Room(total)
    ensures Tight(AddPath(b, path, total).block)
  {
    hide Get32, Words, Paths, Packed, BucketAdd, SetMediaCount, Strs;
    BucketAddTight(b, path, total);
    BucketAddEffect(b, path, total);
    var c := BucketAdd(b, path, total).block;
    SetMediaCountKeeps(c, (MediaCount(c) + 1) % LIMIT32);
    assert |Strs(SetMediaCount(c, (MediaCount(c) + 1) % LIMIT32))| == |Strs(c)|;
  }

  // ---------- Runs without a refusal for size ----------

  ghost predicate AllTight(bs: seq<seq<byte>>) {
    forall k :: 0 <= k < |bs| ==> Tight(bs[k])
  }

  lemma AddAtTight(bs: seq<seq<byte>>, k: nat, path: Path)
    requires Sound(bs) && AllTight(bs) && k < |bs| && HasRoom(bs, k, path)
    ensures AllTight(AddAt(bs, k, path).bs)
  {
    hide AddPath, Tight, Packed;
    OffsetNext(bs, k);
    AddPathTight(bs[k], path, TotalLength(bs));
  }

  lemma StepTight(bs: seq<seq<byte>>, op: Op)
    requires Sound(bs) && AllTight(bs) && FitsOf(bs, op) == Fits(true, true)
    ensures AllTight(Step(bs, op).bs)
  {
    hide AddAt, Packed, Words, Get32, FreshPlaylist, HasRoom;
    match op
    case StartOp(name) => FreshIsTight(name);
    case AddOp(plist, path) =>
      if plist != GLOBAL && Find(bs, GLOBAL).Some? {
        AddAtTight(bs, Find(bs, GLOBAL).value, path);
      }
      var cs := AfterGlobal(bs, plist, path);
      if (plist == GLOBAL || Find(bs, GLOBAL).Some?) && Find(cs, plist).Some? {
        AddAtTight(cs, Find(cs, plist).value, path);
      }
    case DeleteOp(name) =>
  }

  lemma {:induction false} RunTight(bs: seq<seq<byte>>, ops: seq<Op>)
    requires Sound(bs) && AllTight(bs)
    requires forall i :: 0 <= i < |ops| ==> RunFits(bs, ops)[i] == Fits(true, true)
    ensures AllTight(Run(bs, ops))
    decreases |ops|
  {
    hide Step, Sound, AllTight, FitsOf;
    if ops != [] {
      var fs := RunFits(Step(bs, ops[0]).bs, ops[1..]);
      assert RunFits(bs, ops)[0] == FitsOf(bs, ops[0]);
      assert forall i :: 0 <= i < |fs| ==> fs[i] == RunFits(bs, ops)[i + 1];
      StepTight(bs, ops[0]);
      RunTight(Step(bs, ops[0]).bs, ops[1..]);
    }
  }

  /** The space all paths of all playlists need. */
  function TotalCost(bs: seq<seq<byte>>): nat
    requires forall k :: 0 <= k < |bs| ==> WellFormed(bs[k])
  {
    if bs == [] then 0
    else
      assert WellFormed(bs[0]);
      Cost(Paths(bs[0])) + TotalCost(bs[1..])
  }

  /**
    A valid file is at least 161 bytes per playlist longer than its header and its
    paths need; with tight buckets it is at most 288 bytes per playlist longer.
   */
  lemma {:induction false} FileLength(bs: seq<seq<byte>>)
    requires forall k :: 0 <= k < |bs| ==> WellFormed(bs[k])
    ensures HEADER_SIZE + 161 * |bs| + TotalCost(bs) <= TotalLength(bs)
    ensures AllTight(bs) ==> TotalLength(bs) <= HEADER_SIZE + 288 * |bs| + TotalCost(bs)
  {
    hide Paths, Get32, Packed, Words;
    if bs != [] {
      PlaylistLength(bs[0]);
      FileLength(bs[1..]);
      assert forall k :: 0 <= k < |bs| - 1 ==> bs[1..][k] == bs[k + 1];
      assert AllTight(bs) ==> Tight(bs[0]) && AllTight(bs[1..]);
    }
  }

  /** The space bound for every run from a fresh library that meets no size limit. */
  lemma CreatedRunLength(img: seq<byte>, ops: seq<Op>)
    requires Valid(img) && Playlists(img) == Created()
    requires forall i :: 0 <= i < |ops| ==> RunFits(Created(), ops)[i] == Fits(true, true)
    ensures Sound(Playlists(RunFile(img, ops)))
    ensures var bs := Playlists(RunFile(img, ops));
            HEADER_SIZE + 161 * |bs| + TotalCost(bs) <= |RunFile(img, ops)|
              <= HEADER_SIZE + 288 * |bs| + TotalCost(bs)
  {
    hide Run, RunFits, RunFile, Valid, Playlists, FreshPlaylist, Packed, Tight, Paths;
    FreshIsTight(GLOBAL);
    RunTight(Created(), ops);
    FileLength(Run(Created(), ops));
    RunFileIsValid(img, ops);
  }

  // ---------- Runs too small for a refusal ----------

  /** What an operation adds to the file at most. */
  function Most(op: Op): nat {
    match op
    case StartOp(_) => FRESH_SIZE
    case AddOp(_, path) => 2 * (|path| + 133)
    case DeleteOp(_) => 0
  }

  function TotalMost(ops: seq<Op>): nat {
    if ops == [] then 0 else Most(ops[0]) + TotalMost(ops[1..])
  }

  lemma NeedAtMost(b: seq<byte>, len: nat)
    requires Framed(b)
    ensures GROWTH_RATE * Need(b, len) <= len + 132
  {
    hide Get32;
  }

  /** An addition grows the file by the path, an index and a round at most. */
  lemma AddAtMost(bs: seq<seq<byte>>, k: nat, path: Path)
    requires Sound(bs) && k < |bs|
    ensures TotalLength(AddAt(bs, k, path).bs) <= TotalLength(bs) + |path| + 133
    ensures TotalLength(bs) + |path| + 133 < LIMIT32 ==> HasRoom(bs, k, path)
  {
    hide AddPath, Packed, Words, Get32, Paths, Need;
    OffsetNext(bs, k);
    NeedAtMost(bs[k], |path| + 1);
    AddPathLength(bs[k], path, TotalLength(bs));
    AddPathEffect(bs[k], path, TotalLength(bs));
    ReplaceTotal(bs, k, AddPath(bs[k], path, TotalLength(bs)).block);
  }

  lemma StepAtMost(bs: seq<seq<byte>>, op: Op)
    requires Sound(bs) && TotalLength(bs) + Most(op) < LIMIT32
    ensures FitsOf(bs, op) == Fits(true, true)
    ensures TotalLength(Step(bs, op).bs) <= TotalLength(bs) + Most(op)
  {
    hide AddAt, Packed, Words, Get32, FreshPlaylist, HasRoom, TotalLength;
    match op
    case StartOp(name) => AppendTotal(bs, FreshPlaylist(name));
    case AddOp(plist, path) =>
      if Find(bs, GLOBAL).Some? {
        AddAtMost(bs, Find(bs, GLOBAL).value, path);
      }
      var cs := AfterGlobal(bs, plist, path);
      if Find(cs, plist).Some? {
        AddAtMost(cs, Find(cs, plist).value, path);
      }
    case DeleteOp(name) =>
      if Find(bs, name).Some? { RemoveTotal(bs, Find(bs, name).value); }
  }

  /** As long as all it could add fits below 4 GB, nothing in a run is refused for size. */
  lemma {:induction false} SmallRunsFit(bs: seq<seq<byte>>, ops: seq<Op>)
    requires Sound(bs) && TotalLength(bs) + TotalMost(ops) < LIMIT32
    ensures forall i :: 0 <= i < |ops| ==> RunFits(bs, ops)[i] == Fits(true, true)
    ensures TotalLength(Run(bs, ops)) <= TotalLength(bs) + TotalMost(ops)
    decreases |ops|
  {
    hide Sound, Step, FitsOf, TotalLength, Most;
    if ops != [] {
      StepAtMost(bs, ops[0]);
      SmallRunsFit(Step(bs, ops[0]).bs, ops[1..]);
    }
  }
}
