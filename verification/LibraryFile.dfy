/**
  A library mapped in memory. `mem` is the whole file; growing or truncating
  the file replaces the array, as remapping replaces the mapping, so every
  pointer into the file is an offset from its start.
 */
module LibraryFile {
  import opened Bytes
  import opened Strings
  import opened Packing
  import opened Block
  import opened Growth
  import opened Image
  import opened Operations
  import opened Catalog
  import Runs

  // ---------- Byte-level effect of the memory routines ----------

  /** An edit described byte by byte. */
  lemma IsSplice(s: seq<byte>, t: seq<byte>, o: nat, r: seq<byte>)
    requires |t| == |s| && o + |r| <= |s|
    requires forall j :: 0 <= j < |s| ==> t[j] == if o <= j < o + |r| then r[j - o] else s[j]
    ensures t == Splice(s, o, o + |r|, r)
  {
  }

  lemma SpliceParts(s: seq<byte>, t: seq<byte>, i: nat, j: nat)
    requires i <= j <= |s| == |t| && t[..i] == s[..i] && t[j..] == s[j..]
    ensures t == Splice(s, i, j, t[i..j])
  {
    assert t == t[..i] + t[i..j] + t[j..];
  }

  /** Grow, move the tail up, blank the gap: the same as opening a blank gap. */
  lemma OpenedGap(img: seq<byte>, o: nat, n: nat)
    requires HEADER_SIZE <= o <= |img| && |img| + n < LIMIT32
    ensures var g := Put32(img + Zeros(n), LIB_LEN, |img| + n);
            var t := Splice(g, o + n, |img| + n, g[o..|img|]);
            Splice(t, o, o + n, Zeros(n)) == Put32(Splice(img, o, o, Zeros(n)), LIB_LEN, |img| + n)
  {
    hide Word32;
    var w := Word32(|img| + n);
    var g := Put32(img + Zeros(n), LIB_LEN, |img| + n);
    assert g == img[..LIB_LEN] + w + img[LIB_LEN + 4..] + Zeros(n);
    assert g[..o] == img[..LIB_LEN] + w + img[LIB_LEN + 4..o];
    assert g[o..|img|] == img[o..];
    var t := Splice(g, o + n, |img| + n, g[o..|img|]);
    assert t[..o] == g[..o] && t[o + n..] == img[o..];
  }

  /** Move the tail down and cut the end: the same as cutting the hole out. */
  lemma ClosedHole(img: seq<byte>, s: nat, e: nat)
    requires HEADER_SIZE <= s <= e <= |img|
    ensures Splice(img, s, s + (|img| - e), img[e..|img|])[..|img| - (e - s)] == Splice(img, s, e, [])
  {
  }

  /** An array of `n` offsets at `at` into the strings `s` at `strs`, in the file `img`. */
  datatype IndexArea = IndexArea(img: seq<byte>, at: nat, n: nat, strs: nat, s: seq<byte>)
  {
    /** In `m` the array holds `w`, and all else is as in `img`. */
    ghost predicate Holds(m: seq<byte>, w: seq<nat>) {
      && |m| == |img| && at + 4 * n <= |m| && strs + |s| <= at
      && m[..at] == img[..at] && m[at + 4 * n..] == img[at + 4 * n..]
      && m[strs..strs + |s|] == s && Terminated(s)
      && w == Words(m, at, n) && forall i :: 0 <= i < n ==> w[i] < |s|
    }

    lemma Read(m: seq<byte>, w: seq<nat>, i: nat)
      requires Holds(m, w) && i < n
      ensures |w| == n && at + 4 * n <= |m|
      ensures Get32(m, at + 4 * i) == w[i] < |s|
      ensures StringAt(m, strs + w[i]) == KeyIn(s)(w[i])
    {
      hide Value32, Get32, StringAt;
      assert w[i] < |s|;
      LastOfWindow(m, strs, |s|);
      StringAtWindow(m, strs, strs + |s|, w[i]);
    }

    lemma Result(m: seq<byte>, w: seq<nat>)
      requires Holds(m, w)
      ensures forall i :: 0 <= i < |w| ==> w[i] < LIMIT32
      ensures |w| == n && at + 4 * n <= |img|
      ensures m == Splice(img, at, at + 4 * n, BytesOf(w))
    {
      hide Value32, Get32, Terminated;
      assert forall i :: 0 <= i < n ==> Words(m, at, n)[i] < LIMIT32;
      BytesOfWords(m, at, n);
      SpliceParts(img, m, at, at + 4 * n);
    }

    lemma Write(m: seq<byte>, w: seq<nat>, j: nat, v: nat)
      requires Holds(m, w) && j < n && v < |s| && v < LIMIT32
      ensures at + 4 * n <= |m| && Holds(Put32(m, at + 4 * j, v), w[j := v])
    {
      hide Put32, Value32;
      PutWord(m, at, n, j, v);
      PutKeepsEnds(m, at + 4 * j, v, at, at + 4 * n);
      PutKeeps(m, at + 4 * j, v, strs, strs + |s|);
    }
  }

  const LIB_COUNT: nat := 4
  const LIB_NAME: nat := 12
  const LIB_PREFIX: nat := 128
  const LIB_NAME_LEN: nat := 116
  const LIB_PREFIX_LEN: nat := 896

  /** The stores of mlib_create_library into a blank header. */
  function HeaderBytes(name: CString, prefix: CString): seq<byte>
    requires |name| + 1 <= LIB_NAME_LEN && |prefix| + 1 <= LIB_PREFIX_LEN
  {
    var a := Put32(Put32(Put32(Zeros(HEADER_SIZE), 0, LIB_MAGIC), LIB_COUNT, 0), LIB_LEN, HEADER_SIZE);
    var b := Splice(a, LIB_NAME, LIB_NAME + |name| + 1, name + [0]);
    Splice(b, LIB_PREFIX, LIB_PREFIX + |prefix| + 1, prefix + [0])
  }

  lemma CreatedHeader(name: CString, prefix: CString)
    requires |name| + 1 <= LIB_NAME_LEN && |prefix| + 1 <= LIB_PREFIX_LEN
    ensures var h := HeaderBytes(name, prefix);
            && |h| == HEADER_SIZE && Valid(h) && Playlists(h) == []
            && h[LIB_NAME..LIB_NAME + |name| + 1] == name + [0]
            && h[LIB_PREFIX..LIB_PREFIX + |prefix| + 1] == prefix + [0]
  {
    hide Word32, Value32;
    var z := Zeros(HEADER_SIZE);
    var x := Put32(Put32(z, 0, LIB_MAGIC), LIB_COUNT, 0);
    var a := Put32(x, LIB_LEN, HEADER_SIZE);
    assert a[0..4] == Word32(LIB_MAGIC) && a[8..12] == Word32(HEADER_SIZE);
    var b := Splice(a, LIB_NAME, LIB_NAME + |name| + 1, name + [0]);
    var h := HeaderBytes(name, prefix);
    assert h[0..4] == b[0..4] == a[0..4] && h[8..12] == b[8..12] == a[8..12];
    assert b[LIB_NAME..LIB_NAME + |name| + 1] == name + [0];
    assert h[LIB_NAME..LIB_NAME + |name| + 1] == b[LIB_NAME..LIB_NAME + |name| + 1];
    assert h[HEADER_SIZE..] == [];
  }

  lemma StringHere(s: seq<byte>, o: nat, str: CString)
    requires o + |str| + 1 <= |s| && s[o..o + |str| + 1] == str + [0]
    ensures StringAt(s, o) == str
  {
    assert forall i :: o <= i <= o + |str| ==> s[i] == s[o..o + |str| + 1][i - o];
    StringAtBytes(s, o, |str|);
    assert s[o..o + |str|] == str;
  }

  /** Starting the first playlist keeps the strings of the header. */
  lemma CreatedFile(h: seq<byte>, name: CString, prefix: CString)
    requires |name| + 1 <= LIB_NAME_LEN && |prefix| + 1 <= LIB_PREFIX_LEN
    requires h == HeaderBytes(name, prefix)
    ensures |h| == HEADER_SIZE && Sound([]) && Playlists(h) == []
    ensures var r := Start([], GLOBAL);
            && r.bs == [FreshPlaylist(GLOBAL)] && TotalLength(r.bs) < LIMIT32
            && StringAt(Rebuild(h, r.bs), LIB_NAME) == name
            && StringAt(Rebuild(h, r.bs), LIB_PREFIX) == prefix
  {
    hide HeaderBytes, FreshPlaylist, Rebuild, StringAt;
    CreatedHeader(name, prefix);
    var bs := [FreshPlaylist(GLOBAL)];
    AppendTotal([], FreshPlaylist(GLOBAL));
    assert [] + bs == bs;
    var r := Rebuild(h, bs);
    RebuildKeepsHeader(h, bs, LIB_NAME, LIB_NAME + |name| + 1);
    RebuildKeepsHeader(h, bs, LIB_PREFIX, LIB_PREFIX + |prefix| + 1);
    StringHere(r, LIB_NAME, name);
    StringHere(r, LIB_PREFIX, prefix);
  }

  /** The index array of playlist `k` and the strings it points into. */
  lemma IndexAreaOf(img: seq<byte>, bs: seq<seq<byte>>, k: nat)
    requires Holds(img, bs) && k < |bs| && Framed(bs[k]) && Terminated(Strs(bs[k]))
    requires forall i :: 0 <= i < Count(bs[k]) ==> Indexes(bs[k])[i] < StrBytes(bs[k])
    ensures var o, c := Offset(bs, k), bs[k];
            IndexArea(img, o + BUCKET + IndexOffs(c), Count(c), o + PLIST_STRUCT_SIZE, Strs(c))
              .Holds(img, Indexes(c))
  {
    hide Value32, Terminated, Holds;
    var o, c := Offset(bs, k), bs[k];
    var a, n := BUCKET + IndexOffs(c), Count(c);
    ReadPlaylist(img, bs, k, 144, 144 + StrBytes(c));
    ReadPlaylist(img, bs, k, a, a + 4 * n);
    WordsOfSlice(img, o + a, c, a, n);
  }

  class Library {
    var mem: array<byte>

    /** The length field is the length of the file. */
    ghost predicate LengthOk()
      reads this, mem
    {
      HEADER_SIZE <= mem.Length < LIMIT32 && Get32(mem[..], LIB_LEN) == mem.Length
    }

    /** A file of `size` zero bytes. */
    constructor Blank(size: nat)
      ensures fresh(mem) && mem[..] == Zeros(size)
    {
      mem := new byte[size](_ => 0);
    }

    /** __mlib_readl. */
    function Load32(o: nat): (v: nat)
      requires o + 4 <= mem.Length
      reads this, mem
      ensures v == Get32(mem[..], o)
    {
      var w := [mem[o], mem[o + 1], mem[o + 2], mem[o + 3]];
      assert w == mem[..][o..o + 4];
      Value32(w)
    }

    /** memcpy of bytes from outside the file. */
    method StoreBytes(o: nat, s: seq<byte>)
      requires o + |s| <= mem.Length
      modifies mem
      ensures mem[..] == Splice(old(mem[..]), o, o + |s|, s)
    {
      for i := 0 to |s|
        invariant forall j :: 0 <= j < mem.Length ==>
          mem[j] == if o <= j < o + i then s[j - o] else old(mem[j])
      {
        mem[o + i] := s[i];
      }
      IsSplice(old(mem[..]), mem[..], o, s);
    }

    /** __mlib_writel. */
    method Store32(o: nat, v: nat)
      requires o + 4 <= mem.Length && v < LIMIT32
      modifies mem
      ensures mem[..] == Put32(old(mem[..]), o, v)
    {
      StoreBytes(o, Word32(v));
    }

    /** memset to zero. */
    method Memset(o: nat, n: nat)
      requires o + n <= mem.Length
      modifies mem
      ensures mem[..] == Splice(old(mem[..]), o, o + n, Zeros(n))
    {
      for i := 0 to n
        invariant forall j :: 0 <= j < mem.Length ==>
          mem[j] == if o <= j < o + i then 0 else old(mem[j])
      {
        mem[o + i] := 0;
      }
      IsSplice(old(mem[..]), mem[..], o, Zeros(n));
    }

    /** memmove: the ranges may overlap, so the direction of the copy matters. */
    method Memmove(dst: nat, src: nat, n: nat)
      requires dst + n <= mem.Length && src + n <= mem.Length
      modifies mem
      ensures mem[..] == Splice(old(mem[..]), dst, dst + n, old(mem[src..src + n]))
    {
      if dst <= src {
        MoveDown(dst, src, n);
      } else {
        MoveUp(dst, src, n);
      }
      IsSplice(old(mem[..]), mem[..], dst, old(mem[src..src + n]));
    }

    method MoveDown(dst: nat, src: nat, n: nat)
      requires dst <= src && src + n <= mem.Length
      modifies mem
      ensures forall j :: 0 <= j < mem.Length ==>
        mem[j] == if dst <= j < dst + n then old(mem[src + (j - dst)]) else old(mem[j])
    {
      for i := 0 to n
        invariant forall j :: 0 <= j < mem.Length ==>
          mem[j] == if dst <= j < dst + i then old(mem[src + (j - dst)]) else old(mem[j])
      {
        mem[dst + i] := mem[src + i];
      }
    }

    method MoveUp(dst: nat, src: nat, n: nat)
      requires src < dst && dst + n <= mem.Length
      modifies mem
      ensures forall j :: 0 <= j < mem.Length ==>
        mem[j] == if dst <= j < dst + n then old(mem[src + (j - dst)]) else old(mem[j])
    {
      for i := n downto 0
        invariant forall j :: 0 <= j < mem.Length ==>
          mem[j] == if dst + i <= j < dst + n then old(mem[src + (j - dst)]) else old(mem[j])
      {
        mem[dst + i] := mem[src + i];
      }
    }

    // ---------- Growing and shrinking the file ----------

    /** Replaces the mapping by one of `len` bytes that keeps what fits and is zero beyond. */
    method Remap(len: nat)
      modifies this`mem
      ensures fresh(mem) && mem.Length == len
      ensures len >= old(mem.Length) ==> mem[..] == old(mem[..]) + Zeros(len - old(mem.Length))
      ensures len <= old(mem.Length) ==> mem[..] == old(mem[..len])
    {
      var next := new byte[len](_ => 0);
      forall i | 0 <= i < len && i < mem.Length {
        next[i] := mem[i];
      }
      mem := next;
    }

    /**
      __mlib_library_expand: a length that is not larger is refused. The length is a
      size_t; the field keeps its low 32 bits.
     */
    method Expand(len: nat) returns (ret: int)
      requires LengthOk()
      modifies this`mem
      ensures ret == if old(mem.Length) >= len then -1 else 0
      ensures ret == -1 ==> mem == old(mem)
      ensures ret == 0 ==> fresh(mem)
      ensures ret == 0 ==>
        mem[..] == Put32(old(mem[..]) + Zeros(len - old(mem.Length)), LIB_LEN, len % LIMIT32)
    {
      if Load32(LIB_LEN) >= len {
        return -1;
      }
      Remap(len);
      Store32(LIB_LEN, len % LIMIT32);
      return 0;
    }

    /**
      __mlib_library_insert_space. The new length is computed in 32 bits; a sum that
      wraps is smaller than the current length, so it is refused.
     */
    method InsertSpace(offset: nat, length: nat) returns (ret: int)
      requires LengthOk() && HEADER_SIZE <= offset <= mem.Length && length < LIMIT32
      modifies this`mem
      ensures ret == if 0 < length && old(mem.Length) + length < LIMIT32 then 0 else -1
      ensures ret == -1 ==> mem == old(mem)
      ensures ret == 0 ==> fresh(mem) && mem[..] == WithGap(old(mem[..]), offset, length)
    {
      hide Splice, Put32, Value32;
      ghost var img := mem[..];
      var moveLen := Load32(LIB_LEN) - offset;
      ret := Expand((Load32(LIB_LEN) + length) % LIMIT32);
      if ret != 0 {
        return -1;
      }
      Memmove(offset + length, offset, moveLen);
      Memset(offset, length);
      OpenedGap(img, offset, length);
      return 0;
    }

    /** __mlib_library_trunc. */
    method Trunc(len: nat) returns (ret: int)
      requires LengthOk()
      modifies this`mem
      ensures ret == if len < HEADER_SIZE || len > old(mem.Length) then -1 else 0
      ensures ret == -1 ==> mem == old(mem)
      ensures ret == 0 ==> fresh(mem) && mem[..] == Put32(old(mem[..len]), LIB_LEN, len)
    {
      if len < HEADER_SIZE || len > Load32(LIB_LEN) {
        return -1;
      }
      Remap(len);
      Store32(LIB_LEN, len);
      return 0;
    }

    /** __mlib_library_excise. */
    method Excise(start: nat, end: nat) returns (ret: int)
      requires LengthOk() && HEADER_SIZE <= start <= end <= mem.Length
      modifies this`mem, mem
      ensures ret == 0 && fresh(mem)
      ensures mem[..] == Without(old(mem[..]), start, end)
    {
      hide Value32, Put32, Splice;
      ghost var img := mem[..];
      var bytes := Load32(LIB_LEN) - end;
      Memmove(start, end, bytes);
      SpliceBefore(img, start, start + bytes, img[end..|img|], LIB_LEN, LIB_LEN + 4);
      ClosedHole(img, start, end);
      ret := Trunc(Load32(LIB_LEN) - (end - start));
    }

    // ---------- Buckets ----------

    /** The bucket of playlist `k` is at offset `bucket`. */
    ghost predicate BucketAt(bucket: nat, bs: seq<seq<byte>>, k: nat)
      reads this, mem
    {
      Holds(mem[..], bs) && k < |bs| && Framed(bs[k]) && bucket == Offset(bs, k) + BUCKET
    }

    lemma BucketFields(bucket: nat, bs: seq<seq<byte>>, k: nat)
      requires BucketAt(bucket, bs, k)
      ensures bucket + BUCKET_STRINGS + BucketLength(bs[k]) <= mem.Length
      ensures Load32(bucket) == BUCKET_MAGIC
      ensures Load32(bucket + BUCKET_LEN) == BucketLength(bs[k])
      ensures Load32(bucket + BUCKET_INDEX_OFFS) == IndexOffs(bs[k])
      ensures Load32(bucket + BUCKET_STR_BYTES) == StrBytes(bs[k])
    {
      hide Value32;
      ReadWord(mem[..], bs, k, 128);
      ReadWord(mem[..], bs, k, 132);
      ReadWord(mem[..], bs, k, 136);
      ReadWord(mem[..], bs, k, 140);
    }

    lemma BucketIndex(bucket: nat, bs: seq<seq<byte>>, k: nat, i: nat)
      requires BucketAt(bucket, bs, k) && BucketOk(bs[k]) && i < Count(bs[k])
      ensures bucket + BUCKET_STRINGS + BucketLength(bs[k]) <= mem.Length
      ensures Load32(bucket + IndexOffs(bs[k]) + 4 * i) == Indexes(bs[k])[i]
      ensures StringAt(mem[..], bucket + BUCKET_STRINGS + Indexes(bs[k])[i]) == Paths(bs[k])[i]
    {
      hide Value32, StringAt;
      BucketFields(bucket, bs, k);
      ReadWord(mem[..], bs, k, BUCKET + IndexOffs(bs[k]) + 4 * i);
      PackedInRange(Strs(bs[k]), Indexes(bs[k]));
      ReadString(mem[..], bs, k, Indexes(bs[k])[i]);
    }

    /** mlib_bucket_nr_indexes. */
    method BucketNrIndexes(bucket: nat, ghost bs: seq<seq<byte>>, ghost k: nat) returns (n: nat)
      requires BucketAt(bucket, bs, k)
      ensures n == Count(bs[k])
    {
      BucketFields(bucket, bs, k);
      n := (Load32(bucket + BUCKET_LEN) - Load32(bucket + BUCKET_INDEX_OFFS)) / 4;
    }

    /**
      mlib_bucket_contains: a binary search of the index array. The result is the
      offset of the slot that names the string, and there is one exactly when the
      string is among the paths. Without the bucket magic there is none.
     */
    method BucketContains(bucket: nat, str: CString, ghost bs: seq<seq<byte>>, ghost k: nat)
      returns (slot: Option<nat>)
      requires bucket + 4 <= mem.Length
      requires Load32(bucket) == BUCKET_MAGIC ==> BucketAt(bucket, bs, k) && BucketOk(bs[k])
      ensures slot.Some? <==> Load32(bucket) == BUCKET_MAGIC && str in Paths(bs[k])
      ensures slot.Some? ==>
        exists i :: 0 <= i < Count(bs[k]) && Paths(bs[k])[i] == str
                    && slot.value == bucket + IndexOffs(bs[k]) + 4 * i
    {
      hide Get32, StringAt, StrCmp, Words, StringsAt, Packed, Ascending, Strs;
      if Load32(bucket) != BUCKET_MAGIC {
        return None;
      }
      BucketFields(bucket, bs, k);
      PathsAscend(bs[k]);
      var indexes := bucket + Load32(bucket + BUCKET_INDEX_OFFS);
      var n := BucketNrIndexes(bucket, bs, k);
      var lo, hi := 0, n;
      while lo < hi
        invariant 0 <= lo <= hi <= n == |Paths(bs[k])|
        invariant forall i :: 0 <= i < lo || hi <= i < n ==> Paths(bs[k])[i] != str
      {
        var mid := (lo + hi) / 2;
        BucketIndex(bucket, bs, k, mid);
        Bisect(Paths(bs[k]), str, mid);
        var cmp := StrCmp(str, StringAt(mem[..], bucket + BUCKET_STRINGS + Load32(indexes + 4 * mid)));
        if cmp == 0 {
          return Some(indexes + 4 * mid);
        } else if cmp < 0 {
          hi := mid;
        } else {
          lo := mid + 1;
        }
      }
      return None;
    }

    /** Exchanges two neighbours in an index array. */
    method SwapIndexes(ghost area: IndexArea, ghost w: seq<nat>, at: nat, j: nat)
      requires area.Holds(mem[..], w) && at == area.at && 0 < j < area.n
      modifies mem
      ensures area.Holds(mem[..], w[j - 1 := w[j]][j := w[j - 1]])
    {
      hide Value32, Put32, IndexArea.Holds;
      area.Read(mem[..], w, j - 1);
      area.Read(mem[..], w, j);
      var left, right := Load32(at + 4 * (j - 1)), Load32(at + 4 * j);
      area.Write(mem[..], w, j - 1, right);
      Store32(at + 4 * (j - 1), right);
      area.Write(mem[..], w[j - 1 := right], j, left);
      Store32(at + 4 * j, left);
    }

    /** __mlib_bucket_cmp_indexes: strcmp of the strings two words of the array point to. */
    method CompareIndexes(ghost area: IndexArea, ghost w: seq<nat>, at: nat, strs: nat, i: nat, j: nat)
      returns (cmp: int)
      requires area.Holds(mem[..], w) && at == area.at && strs == area.strs
      requires i < area.n && j < area.n
      ensures cmp == StrCmp(KeyIn(area.s)(w[i]), KeyIn(area.s)(w[j]))
    {
      hide Value32, StringAt, StrCmp, IndexArea.Holds;
      area.Read(mem[..], w, i);
      area.Read(mem[..], w, j);
      var a, b := Load32(at + 4 * i), Load32(at + 4 * j);
      cmp := StrCmp(StringAt(mem[..], strs + a), StringAt(mem[..], strs + b));
    }

    /** Moves word `i` down to its place among the sorted words before it. */
    method InsertIndex(ghost area: IndexArea, ghost w: seq<nat>, at: nat, strs: nat, i: nat)
      returns (ghost offs: seq<nat>)
      requires area.Holds(mem[..], w) && at == area.at && strs == area.strs
      requires i < area.n == |w| && Sorted(w[..i], KeyIn(area.s))
      modifies mem
      ensures area.Holds(mem[..], offs) && |offs| == |w|
      ensures multiset(offs) == multiset(w) && Sorted(offs[..i + 1], KeyIn(area.s))
    {
      hide StrCmp, KeyIn, SortedBut, Sorted, IndexArea.Holds;
      offs := w;
      var j := i;
      SortedPrefix<nat>(offs, i, KeyIn(area.s));
      while j > 0
        invariant 0 <= j <= i && |offs| == |w|
        invariant area.Holds(mem[..], offs) && multiset(offs) == multiset(w)
        invariant SortedBut<nat>(offs, i + 1, j, KeyIn(area.s))
      {
        var cmp := CompareIndexes(area, offs, at, strs, j - 1, j);
        if cmp <= 0 {
          break;
        }
        SwapIndexes(area, offs, at, j);
        SwapLeft<nat>(offs, i + 1, j, KeyIn(area.s));
        offs := offs[j - 1 := offs[j]][j := offs[j - 1]];
        j := j - 1;
      }
      SwapDone<nat>(offs, i + 1, j, KeyIn(area.s));
    }

    /**
      qsort of an index array by the strings its words point to. Section 7.22.5.2 of
      ISO/IEC 9899:2011 promises a sorted rearrangement; this is one way to get it.
     */
    method SortIndexes(ghost area: IndexArea, ghost w: seq<nat>, at: nat, n: nat, strs: nat)
      returns (ghost offs: seq<nat>)
      requires area.Holds(mem[..], w) && at == area.at && strs == area.strs && n == area.n == |w|
      modifies mem
      ensures area.Holds(mem[..], offs)
      ensures multiset(offs) == multiset(w) && Sorted(offs, KeyIn(area.s))
    {
      hide StrCmp, KeyIn, IndexArea.Holds;
      offs := w;
      for i := 0 to n
        invariant area.Holds(mem[..], offs) && |offs| == n && multiset(offs) == multiset(w)
        invariant Sorted(offs[..i], KeyIn(area.s))
      {
        offs := InsertIndex(area, offs, at, strs, i);
      }
      assert offs[..n] == offs;
    }

    /** The file is `img` with the playlists `bs` in place of its own. */
    ghost predicate Became(img: seq<byte>, bs: seq<seq<byte>>)
      reads this, mem
    {
      && HEADER_SIZE <= |img| && TotalLength(bs) < LIMIT32
      && Holds(mem[..], bs) && mem[..] == Rebuild(img, bs)
    }

    /** The file is `img` with the playlists `bs`, but `c` in place of playlist `k`. */
    ghost predicate PlaylistIs(img: seq<byte>, bs: seq<seq<byte>>, k: nat, c: seq<byte>)
      reads this, mem
    {
      k < |bs| && Became(img, bs[k := c])
    }

    lemma PlaylistIsOwn(bs: seq<seq<byte>>, k: nat)
      requires Holds(mem[..], bs) && k < |bs|
      ensures PlaylistIs(mem[..], bs, k, bs[k])
      ensures HEADER_SIZE <= Offset(bs, k) && Offset(bs, k) + |bs[k]| <= mem.Length == TotalLength(bs)
    {
      HoldsTotal(mem[..], bs);
      OffsetNext(bs, k);
      assert bs[k := bs[k]] == bs;
    }

    /** A word of playlist `k`. */
    lemma FieldIs(o: nat, img: seq<byte>, bs: seq<seq<byte>>, k: nat, c: seq<byte>, i: nat)
      requires PlaylistIs(img, bs, k, c) && i + 4 <= |c| && o == Offset(bs, k) + i
      ensures o + 4 <= mem.Length && Load32(o) == Get32(c, i)
    {
      assert bs[k := c][..k] == bs[..k];
      ReadWord(mem[..], bs[k := c], k, i);
    }

    /** Overwrites bytes of playlist `k`. */
    method EditBytes(o: nat, r: seq<byte>, ghost img: seq<byte>, ghost bs: seq<seq<byte>>,
                     ghost k: nat, ghost c: seq<byte>, ghost i: nat)
      requires PlaylistIs(img, bs, k, c) && i + |r| <= |c| && o == Offset(bs, k) + i
      modifies mem
      ensures PlaylistIs(img, bs, k, Splice(c, i, i + |r|, r))
    {
      hide Splice, Rebuild, Image.Holds;
      ghost var d := Splice(c, i, i + |r|, r);
      assert bs[k := c][..k] == bs[..k] && bs[k := c][k := d] == bs[k := d];
      EditRebuilds(mem[..], bs[k := c], k, i, r);
      RebuildTwice(img, bs[k := c], bs[k := d]);
      StoreBytes(o, r);
    }

    /** Overwrites a word of playlist `k`. */
    method EditWord(o: nat, v: nat, ghost img: seq<byte>, ghost bs: seq<seq<byte>>,
                    ghost k: nat, ghost c: seq<byte>, ghost i: nat)
      requires PlaylistIs(img, bs, k, c) && i + 4 <= |c| && o == Offset(bs, k) + i
      requires v < LIMIT32
      modifies mem
      ensures PlaylistIs(img, bs, k, Put32(c, i, v))
    {
      hide Splice, PlaylistIs;
      EditBytes(o, Word32(v), img, bs, k, c, i);
    }

    /** mlib_bucket_expand. */
    method BucketExpand(bucket: nat, length: nat, ghost bs: seq<seq<byte>>, ghost k: nat)
      returns (ret: int)
      requires BucketAt(bucket, bs, k) && 0 < length < LIMIT32
      modifies this`mem
      ensures ret == if old(mem.Length) + length < LIMIT32 then 0 else -1
      ensures ret == -1 ==> mem == old(mem)
      ensures ret == 0 ==> fresh(mem) && |bs[k]| + length < LIMIT32
      ensures ret == 0 ==> PlaylistIs(old(mem[..]), bs, k, Block.Expand(bs[k], length))
    {
      hide Splice, Put32, Rebuild, Value32;
      ghost var img, b, a := mem[..], bs[k], BUCKET + IndexOffs(bs[k]);
      PlaylistIsOwn(bs, k);
      BucketFields(bucket, bs, k);
      ret := InsertSpace(bucket + Load32(bucket + BUCKET_INDEX_OFFS), length);
      if ret != 0 {
        return -1;
      }
      InsertRebuilds(img, bs, k, a, length);
      ghost var s := Splice(b, a, a, Zeros(length));
      RebuildHolds(img, bs[k := s]);
      SpliceKeepsWord(b, a, a, Zeros(length), 132);
      SpliceKeepsWord(b, a, a, Zeros(length), 136);
      SpliceKeepsWord(b, a, a, Zeros(length), 4);
      LengthenFields(bucket, length, img, bs, k, s);
      return 0;
    }

    /** Adds `length` to the bucket length, the index offset and the playlist length. */
    method LengthenFields(bucket: nat, length: nat, ghost img: seq<byte>, ghost bs: seq<seq<byte>>,
                          ghost k: nat, ghost s: seq<byte>)
      requires PlaylistIs(img, bs, k, s) && bucket == Offset(bs, k) + BUCKET
      requires |s| >= PLIST_STRUCT_SIZE && Length(s) + length < LIMIT32
      requires BucketLength(s) + length < LIMIT32 && IndexOffs(s) + length < LIMIT32
      modifies mem
      ensures PlaylistIs(img, bs, k,
                Put32(Put32(Put32(s, 132, BucketLength(s) + length),
                            136, IndexOffs(s) + length), 4, Length(s) + length))
    {
      hide Put32, Value32, PlaylistIs;
      FieldIs(bucket + BUCKET_LEN, img, bs, k, s, 132);
      EditWord(bucket + BUCKET_LEN, Load32(bucket + BUCKET_LEN) + length, img, bs, k, s, 132);

      ghost var t := Put32(s, 132, BucketLength(s) + length);
      PutKeepsWord(s, 132, BucketLength(s) + length, 136);
      FieldIs(bucket + BUCKET_INDEX_OFFS, img, bs, k, t, 136);
      EditWord(bucket + BUCKET_INDEX_OFFS, Load32(bucket + BUCKET_INDEX_OFFS) + length,
               img, bs, k, t, 136);

      ghost var u := Put32(t, 136, IndexOffs(s) + length);
      PutKeepsWord(s, 132, BucketLength(s) + length, 4);
      PutKeepsWord(t, 136, IndexOffs(s) + length, 4);
      var plist := bucket - BUCKET;
      FieldIs(plist + PLIST_LEN, img, bs, k, u, 4);
      EditWord(plist + PLIST_LEN, Load32(plist + PLIST_LEN) + length, img, bs, k, u, 4);
    }

    /** mlib_bucket_sort: the index array becomes a sorted rearrangement of itself. */
    method BucketSort(bucket: nat, ghost img: seq<byte>, ghost bs: seq<seq<byte>>,
                      ghost k: nat, ghost c: seq<byte>)
      returns (ghost offs: seq<nat>)
      requires PlaylistIs(img, bs, k, c) && bucket == Offset(bs, k) + BUCKET
      requires Framed(c) && Terminated(Strs(c))
      requires forall i :: 0 <= i < Count(c) ==> Indexes(c)[i] < StrBytes(c)
      modifies mem
      ensures multiset(offs) == multiset(Indexes(c)) && Sorted(offs, KeyIn(Strs(c)))
      ensures |offs| == Count(c) && forall i :: 0 <= i < |offs| ==> offs[i] < LIMIT32
      ensures PlaylistIs(img, bs, k, Reindexed(c, offs))
    {
      hide Splice, Rebuild, Value32, Image.Holds, IndexArea.Holds, Words, KeyIn, Sorted;
      ghost var cs, a := bs[k := c], BUCKET + IndexOffs(c);
      assert cs[..k] == bs[..k];
      BucketFields(bucket, cs, k);
      var n := BucketNrIndexes(bucket, cs, k);
      var at := bucket + Load32(bucket + BUCKET_INDEX_OFFS);
      ghost var area := IndexArea(mem[..], at, n, bucket + BUCKET_STRINGS, Strs(c));
      IndexAreaOf(mem[..], cs, k);
      offs := SortIndexes(area, Indexes(c), at, n, bucket + BUCKET_STRINGS);
      area.Result(mem[..], offs);
      EditRebuilds(area.img, cs, k, a, BytesOf(offs));
      assert cs[k := Reindexed(c, offs)] == bs[k := Reindexed(c, offs)];
      RebuildTwice(img, cs, bs[k := Reindexed(c, offs)]);
    }

    /** The bucket fields of playlist `k` while `c` is in its place. */
    lemma BucketIs(bucket: nat, img: seq<byte>, bs: seq<seq<byte>>, k: nat, c: seq<byte>)
      requires PlaylistIs(img, bs, k, c) && Framed(c) && bucket == Offset(bs, k) + BUCKET
      ensures BucketAt(bucket, bs[k := c], k) && mem[..] == Rebuild(img, bs[k := c])
      ensures bucket + BUCKET_STRINGS + BucketLength(c) <= mem.Length
      ensures Load32(bucket + BUCKET_INDEX_OFFS) == IndexOffs(c)
      ensures Load32(bucket + BUCKET_STR_BYTES) == StrBytes(c)
      ensures mem.Length == TotalLength(bs) - |bs[k]| + |c| < LIMIT32
    {
      hide Value32, Splice;
      assert bs[k := c][..k] == bs[..k];
      BucketFields(bucket, bs[k := c], k);
      ReplaceTotal(bs, k, c);
    }

    lemma PlaylistIsThen(img: seq<byte>, bs: seq<seq<byte>>, k: nat, c: seq<byte>, d: seq<byte>)
      requires k < |bs| && HEADER_SIZE <= |img| && TotalLength(bs[k := c]) < LIMIT32
      requires PlaylistIs(Rebuild(img, bs[k := c]), bs[k := c], k, d)
      ensures PlaylistIs(img, bs, k, d)
    {
      hide Rebuild, Image.Holds;
      assert bs[k := c][k := d] == bs[k := d];
      RebuildTwice(img, bs[k := c], bs[k := d]);
    }

    /** The restart loop of mlib_bucket_add: grow until `len` more string bytes fit. */
    method EnsureSpace(bucket: nat, len: nat, ghost bs: seq<seq<byte>>, ghost k: nat)
      returns (ret: int)
      requires BucketAt(bucket, bs, k)
      modifies this`mem
      ensures mem == old(mem) || fresh(mem)
      ensures old(mem.Length) == TotalLength(bs) < LIMIT32
      ensures var need, room := Need(bs[k], len), Room(old(mem.Length));
              var rounds := if need <= room then need else room;
              && |bs[k]| + GROWTH_RATE * rounds < LIMIT32
              && PlaylistIs(old(mem[..]), bs, k, Expanded(bs[k], rounds))
              && ret == if need <= room then 0 else -1
    {
      hide Rebuild, Get32, Image.Holds, PlaylistIs, Block.Expand, Expanded;
      ghost var img, b, j := mem[..], bs[k], 0;
      StartsAs(bucket, bs, k);
      while bucket + BUCKET_STRINGS + Load32(bucket + BUCKET_STR_BYTES) + len
            >= bucket + Load32(bucket + BUCKET_INDEX_OFFS) - 4
        invariant mem == old(mem) || fresh(mem)
        invariant 0 <= j <= Need(b, len) && |img| + GROWTH_RATE * j < LIMIT32
        invariant PlaylistIs(img, bs, k, Expanded(b, j))
        invariant bucket + BUCKET_STRINGS <= mem.Length
        invariant mem.Length == |img| + GROWTH_RATE * j
        invariant Load32(bucket + BUCKET_INDEX_OFFS) == IndexOffs(Expanded(b, j))
        invariant Load32(bucket + BUCKET_STR_BYTES) == StrBytes(Expanded(b, j))
        decreases Need(b, len) - j
      {
        ghost var c := Expanded(b, j);
        NeedIsLeast(b, len, j);
        BucketIs(bucket, img, bs, k, c);
        ret := BucketExpand(bucket, GROWTH_RATE, bs[k := c], k);
        if ret != 0 {
          return -1;
        }
        assert bs[k := c][k] == c;
        ExpandedNext(b, j);
        j := j + 1;
        PlaylistIsThen(img, bs, k, c, Expanded(b, j));
        BucketIs(bucket, img, bs, k, Expanded(b, j));
      }
      NeedIsLeast(b, len, j);
      return 0;
    }

    lemma StartsAs(bucket: nat, bs: seq<seq<byte>>, k: nat)
      requires BucketAt(bucket, bs, k)
      ensures PlaylistIs(mem[..], bs, k, Expanded(bs[k], 0)) && Expanded(bs[k], 0) == bs[k]
      ensures bucket + BUCKET_STRINGS <= mem.Length == TotalLength(bs) < LIMIT32
      ensures |bs[k]| <= mem.Length
      ensures Load32(bucket + BUCKET_INDEX_OFFS) == IndexOffs(bs[k])
      ensures Load32(bucket + BUCKET_STR_BYTES) == StrBytes(bs[k])
    {
      PlaylistIsOwn(bs, k);
      BucketFields(bucket, bs, k);
    }

    /** The stores of mlib_bucket_add once there is room: string, offset and both fields. */
    method AppendString(bucket: nat, str: CString, ghost img: seq<byte>, ghost bs: seq<seq<byte>>,
                        ghost k: nat, ghost c: seq<byte>)
      requires PlaylistIs(img, bs, k, c) && Framed(c) && bucket == Offset(bs, k) + BUCKET
      requires Fits(c, |str| + 1)
      modifies mem
      ensures PlaylistIs(img, bs, k, Appended(c, str))
    {
      hide Rebuild, Get32, PlaylistIs, Put32, Splice, BucketAt;
      BucketIs(bucket, img, bs, k, c);
      ghost var a, o := PLIST_STRUCT_SIZE + StrBytes(c), BUCKET + IndexOffs(c) - 4;
      var endOfStrs := bucket + BUCKET_STRINGS + Load32(bucket + BUCKET_STR_BYTES);
      var startOfIndexes := bucket + Load32(bucket + BUCKET_INDEX_OFFS);
      EditBytes(endOfStrs, str + [0], img, bs, k, c, a);
      ghost var s := Splice(c, a, a + |str| + 1, str + [0]);

      EditWord(startOfIndexes - 4, endOfStrs - (bucket + BUCKET_STRINGS), img, bs, k, s, o);
      ghost var t := Put32(s, o, StrBytes(c));
      SpliceKeepsWord(c, a, a + |str| + 1, str + [0], 136);
      SpliceKeepsWord(c, a, a + |str| + 1, str + [0], 140);
      PutKeepsWord(s, o, StrBytes(c), 136);
      PutKeepsWord(s, o, StrBytes(c), 140);

      FieldIs(bucket + BUCKET_INDEX_OFFS, img, bs, k, t, 136);
      EditWord(bucket + BUCKET_INDEX_OFFS, Load32(bucket + BUCKET_INDEX_OFFS) - 4, img, bs, k, t, 136);
      ghost var u := Put32(t, 136, IndexOffs(c) - 4);
      PutKeepsWord(t, 136, IndexOffs(c) - 4, 140);

      FieldIs(bucket + BUCKET_STR_BYTES, img, bs, k, u, 140);
      EditWord(bucket + BUCKET_STR_BYTES, Load32(bucket + BUCKET_STR_BYTES) + |str| + 1,
               img, bs, k, u, 140);
    }

    /** mlib_bucket_add. */
    method BucketAdd(bucket: nat, str: Path, ghost bs: seq<seq<byte>>, ghost k: nat)
      returns (ret: int)
      requires BucketAt(bucket, bs, k) && BucketOk(bs[k])
      modifies this`mem, mem
      ensures mem == old(mem) || fresh(mem)
      ensures |bs[k]| <= old(mem.Length) < LIMIT32
      ensures var r := Growth.BucketAdd(bs[k], str, old(mem.Length));
              PlaylistIs(old(mem[..]), bs, k, r.block) && ret == if r.ok then 0 else -1
    {
      hide Rebuild, Value32, Image.Holds, PlaylistIs, Packed, Paths, Expanded, Appended;
      ghost var img, b := mem[..], bs[k];
      StartsAs(bucket, bs, k);
      BucketFields(bucket, bs, k);
      var slot := BucketContains(bucket, str, bs, k);
      if slot.Some? {
        return -1;
      }
      ret := EnsureSpace(bucket, |str| + 1, bs, k);
      if ret != 0 {
        return -1;
      }
      ghost var c := Expanded(b, Need(b, |str| + 1));
      NeedIsLeast(b, |str| + 1, Need(b, |str| + 1));
      ExpandedKeeps(b, Need(b, |str| + 1));
      SameContentsReads(b, c);
      AppendString(bucket, str, img, bs, k, c);
      AppendedSortable(c, str);
      ghost var offs := BucketSort(bucket, img, bs, k, Appended(c, str));
      SortedIsNew(c, str, offs);
      return 0;
    }

    // ---------- Playlists ----------

    /** The file is valid and its playlists are `bs`. */
    ghost predicate Carries(bs: seq<seq<byte>>)
      reads this, mem
    {
      Holds(mem[..], bs) && Sound(bs)
    }

    lemma CarriesIsValid(bs: seq<seq<byte>>)
      ensures Carries(bs) ==> Valid(mem[..]) && Playlists(mem[..]) == bs
      ensures Valid(mem[..]) ==> Carries(Playlists(mem[..]))
      ensures Carries(bs) ==> mem.Length == TotalLength(bs) && mem[..] == Rebuild(mem[..], bs)
    {
      hide Rebuild, Framed;
      if Carries(bs) {
        assert forall k :: 0 <= k < |bs| ==> WellFormed(bs[k]);
        HoldsPlaylists(mem[..], bs);
        HoldsTotal(mem[..], bs);
      }
      if Valid(mem[..]) { HoldsTotal(mem[..], Playlists(mem[..])); }
    }

    /** What a hop finds at the offset of playlist `k`, or at the end of the file. */
    lemma HopTarget(bs: seq<seq<byte>>, k: nat)
      requires Carries(bs) && k <= |bs|
      ensures LengthOk() && Offset(bs, 0) == HEADER_SIZE
      ensures k == |bs| ==> Offset(bs, k) == mem.Length
      ensures k < |bs| ==>
        && Offset(bs, k + 1) == Offset(bs, k) + |bs[k]| <= mem.Length
        && PLIST_STRUCT_SIZE <= |bs[k]| < LIMIT32
        && Load32(Offset(bs, k)) == PLIST_MAGIC && Load32(Offset(bs, k) + PLIST_LEN) == |bs[k]|
        && StringAt(mem[..], Offset(bs, k) + PLIST_NAME) == Name(bs[k]) && |Name(bs[k])| < PLIST_NAME_LEN
    {
      hide Rebuild, Value32, Packed, StringAt, Words;
      CarriesIsValid(bs);
      if k < |bs| {
        assert WellFormed(bs[k]);
        OffsetNext(bs, k);
        ReadWord(mem[..], bs, k, 0);
        ReadWord(mem[..], bs, k, PLIST_LEN);
        ReadName(mem[..], bs, k);
      } else {
        assert bs[..k] == bs;
      }
    }

    /** Where a hop leads: to the first playlist, or past a playlist by its length field. */
    function HopTo(plist: Option<nat>): nat
      requires plist.Some? ==> plist.value + PLIST_LEN + 4 <= mem.Length
      reads this, mem
    {
      if plist.None? then HEADER_SIZE else plist.value + Load32(plist.value + PLIST_LEN)
    }

    /**
      mlib_next_playlist, on any file, whatever its length field says: nothing at or past
      the end it claims, and nothing where the playlist magic is missing. The words it
      reads must lie in the file.
     */
    method NextPlaylist(plist: Option<nat>) returns (next: Option<nat>)
      requires HEADER_SIZE <= mem.Length && (plist.Some? ==> plist.value + PLIST_LEN + 4 <= mem.Length)
      requires HopTo(plist) < Load32(LIB_LEN) ==> HopTo(plist) + 4 <= mem.Length
      ensures next.Some? <==> HopTo(plist) < Load32(LIB_LEN) && Load32(HopTo(plist)) == PLIST_MAGIC
      ensures next.Some? ==> next.value == HopTo(plist)
    {
      var o := HopTo(plist);
      if o >= Load32(LIB_LEN) {
        return None;
      }
      if Load32(o) != PLIST_MAGIC {
        return None;
      }
      return Some(o);
    }

    /** A playlist's offset, or none past the last. */
    ghost function Place(bs: seq<seq<byte>>, k: nat): Option<nat> {
      if k < |bs| then Some(Offset(bs, k)) else None
    }

    /** On a valid file a hop from playlist `k - 1` lands on playlist `k`, and corruption is never seen. */
    lemma HopLands(bs: seq<seq<byte>>, k: nat)
      requires Carries(bs) && k <= |bs|
      ensures var plist := if k == 0 then None else Place(bs, k - 1);
              && HEADER_SIZE <= mem.Length == Load32(LIB_LEN)
              && (plist.Some? ==> plist.value + PLIST_LEN + 4 <= mem.Length)
              && HopTo(plist) == Offset(bs, k)
              && (k == |bs| ==> HopTo(plist) == mem.Length)
              && (k < |bs| ==> HopTo(plist) + 4 <= mem.Length && Load32(HopTo(plist)) == PLIST_MAGIC)
    {
      hide Rebuild, Get32, Offset, TotalLength, Carries, StringAt, Name;
      HopTarget(bs, k);
      if k > 0 { HopTarget(bs, k - 1); }
    }

    /** mlib_find_playlist: the offset of the first playlist of that name. */
    method FindPlaylist(name: CString, ghost bs: seq<seq<byte>>) returns (plist: Option<nat>)
      requires Carries(bs)
      ensures plist.Some? == Find(bs, name).Some?
      ensures plist.Some? ==> plist.value == Offset(bs, Find(bs, name).value)
    {
      hide Rebuild, Get32, Offset, TotalLength, Packed, Words, StringAt, Holds, LengthOk, HopTo;
      hide Find, Name, StrNCmp, Flat;
      ghost var k := 0;
      HopLands(bs, 0);
      plist := NextPlaylist(None);
      while plist.Some?
        invariant k <= |bs| && plist == Place(bs, k)
        invariant forall j :: 0 <= j < k ==> Name(bs[j]) != name
        decreases |bs| - k
      {
        HopTarget(bs, k);
        StrNCmpZero(Name(bs[k]), name, PLIST_NAME_LEN);
        if StrNCmp(StringAt(mem[..], plist.value + PLIST_NAME), name, PLIST_NAME_LEN) == 0 {
          return;
        }
        k := k + 1;
        HopLands(bs, k);
        plist := NextPlaylist(plist);
      }
    }

    /** Visits every playlist in file order, as mlib_for_each_pls does. */
    method ForEachPlaylist(ghost bs: seq<seq<byte>>) returns (visited: seq<nat>)
      requires Carries(bs)
      ensures visited == seq(|bs|, k requires 0 <= k < |bs| => Offset(bs, k))
    {
      hide Carries, LengthOk, HopTo, Offset;
      visited := [];
      HopLands(bs, 0);
      var plist := NextPlaylist(None);
      while plist.Some?
        invariant |visited| <= |bs| && plist == Place(bs, |visited|)
        invariant forall j :: 0 <= j < |visited| ==> visited[j] == Offset(bs, j)
        decreases |bs| - |visited|
      {
        visited := visited + [plist.value];
        HopLands(bs, |visited|);
        plist := NextPlaylist(plist);
      }
    }

    /** mlib_init_bucket. */
    method InitBucket(bucket: nat, size: nat, ghost img: seq<byte>, ghost bs: seq<seq<byte>>,
                      ghost k: nat, ghost c: seq<byte>)
      returns (ret: int)
      requires PlaylistIs(img, bs, k, c) && |c| >= PLIST_STRUCT_SIZE && bucket == Offset(bs, k) + BUCKET
      requires size < LIMIT32
      modifies mem
      ensures ret == if size < BUCKET_STRINGS then -1 else 0
      ensures PlaylistIs(img, bs, k, if ret == 0 then InitBucketBytes(c, BUCKET, size) else c)
    {
      hide Put32, PlaylistIs;
      if size < BUCKET_STRINGS {
        return -1;
      }
      EditWord(bucket, BUCKET_MAGIC, img, bs, k, c, 128);
      ghost var d := Put32(c, 128, BUCKET_MAGIC);
      EditWord(bucket + BUCKET_LEN, size, img, bs, k, d, 132);
      ghost var e := Put32(d, 132, size);
      EditWord(bucket + BUCKET_INDEX_OFFS, size, img, bs, k, e, 136);
      EditWord(bucket + BUCKET_STR_BYTES, 0, img, bs, k, Put32(e, 136, size), 140);
      return 0;
    }

    /** The stores of mlib_start_playlist into the blank space at the end. */
    method WritePlaylist(plist: nat, name: CString, ghost img: seq<byte>, ghost bs: seq<seq<byte>>, ghost k: nat)
      requires PlaylistIs(img, bs, k, Zeros(FRESH_SIZE)) && plist == Offset(bs, k)
      modifies mem
      ensures PlaylistIs(img, bs, k, FreshPlaylist(name))
    {
      hide Put32, PlaylistIs, Splice, FreshPlaylist, Padded, InitBucketBytes;
      ghost var z := Zeros(FRESH_SIZE);
      EditBytes(plist + PLIST_NAME, Zeros(PLIST_NAME_LEN), img, bs, k, z, 12);
      ghost var a := Splice(z, 12, 128, Zeros(PLIST_NAME_LEN));
      EditBytes(plist + PLIST_NAME, Padded(name, PLIST_NAME_LEN - 1), img, bs, k, a, 12);
      ghost var b := Splice(a, 12, 127, Padded(name, PLIST_NAME_LEN - 1));
      EditWord(plist, PLIST_MAGIC, img, bs, k, b, 0);
      ghost var c := Put32(b, 0, PLIST_MAGIC);
      EditWord(plist + PLIST_LEN, PLIST_STRUCT_SIZE + GROWTH_RATE, img, bs, k, c, 4);
      ghost var d := Put32(c, 4, FRESH_SIZE);
      EditWord(plist + PLIST_MCOUNT, 0, img, bs, k, d, 8);
      var _ := InitBucket(plist + BUCKET, GROWTH_RATE, img, bs, k, Put32(d, 8, 0));
      WrittenIsFresh(name);
    }

    /** mlib_start_playlist. */
    method StartPlaylist(name: CString) returns (ret: int)
      requires Valid(mem[..])
      modifies this`mem
      ensures mem == old(mem) || fresh(mem)
      ensures Valid(mem[..])
      ensures var r := Start(Playlists(old(mem[..])), name);
              && Playlists(mem[..]) == r.bs && mem[..] == Rebuild(old(mem[..]), r.bs)
              && ret == if r.ok then 0 else -1
      ensures Decode(mem[..])
           == StartEntry(Decode(old(mem[..])), name, old(mem.Length) + FRESH_SIZE < LIMIT32).entries
      ensures PlaylistStarted(Decode(old(mem[..])), name, old(mem.Length) + FRESH_SIZE < LIMIT32,
                              Decode(mem[..]), ret == 0)
    {
      hide Put32, Splice, FreshPlaylist, WellFormed, Rebuild, Playlists, Get32, StringAt;
      ghost var img, bs := mem[..], Playlists(mem[..]);
      CarriesIsValid(bs);
      StartSound(bs, name);
      var found := FindPlaylist(name, bs);
      if found.Some? {
        StartDecodes(img, name, mem[..]);
        return -1;
      }
      var plist := Load32(LIB_LEN);
      ret := Expand((Load32(LIB_LEN) + PLIST_STRUCT_SIZE + GROWTH_RATE) % LIMIT32);
      if ret < 0 {
        StartDecodes(img, name, mem[..]);
        return -1;
      }
      ghost var es, k := bs + [Zeros(FRESH_SIZE)], |bs|;
      AppendRebuilds(img, bs, FRESH_SIZE);
      RebuildHolds(img, es);
      assert es[k := Zeros(FRESH_SIZE)] == es && es[..k] == bs;
      WritePlaylist(plist, name, img, es, k);
      assert es[k := FreshPlaylist(name)] == bs + [FreshPlaylist(name)];
      CarriesIsValid(bs + [FreshPlaylist(name)]);
      StartDecodes(img, name, mem[..]);
      return 0;
    }

    /** mlib_delete_playlist. */
    method DeletePlaylist(name: CString) returns (ret: int)
      requires Valid(mem[..])
      modifies this`mem, mem
      ensures mem == old(mem) || fresh(mem)
      ensures Valid(mem[..])
      ensures var r := Delete(Playlists(old(mem[..])), name);
              && Playlists(mem[..]) == r.bs && mem[..] == Rebuild(old(mem[..]), r.bs)
              && ret == if r.ok then 0 else -1
      ensures Decode(mem[..]) == DeleteEntry(Decode(old(mem[..])), name).entries
      ensures PlaylistDeleted(Decode(old(mem[..])), name, Decode(mem[..]), ret == 0)
    {
      hide Put32, Splice, Packed, Words, Rebuild, Playlists, Get32, StringAt, Paths, Valid, Flat;
      ghost var img, bs := mem[..], Playlists(mem[..]);
      CarriesIsValid(bs);
      DeleteSound(bs, name);
      var found := FindPlaylist(name, bs);
      if found.None? {
        DeleteDecodes(img, name, mem[..]);
        return -1;
      }
      ghost var k := Find(bs, name).value;
      var plist := found.value;
      HopTarget(bs, k);
      ret := Excise(plist, plist + Load32(plist + PLIST_LEN));
      RemoveRebuilds(img, bs, k);
      RebuildHolds(img, bs[..k] + bs[k + 1..]);
      CarriesIsValid(bs[..k] + bs[k + 1..]);
      DeleteDecodes(img, name, mem[..]);
    }

    lemma CarriesAdded(img: seq<byte>, bs: seq<seq<byte>>, k: nat, path: Path)
      requires Sound(bs) && k < |bs| && |bs[k]| <= TotalLength(bs)
      requires PlaylistIs(img, bs, k, Growth.AddPath(bs[k], path, TotalLength(bs)).block)
      ensures Carries(AddAt(bs, k, path).bs) && mem[..] == Rebuild(img, AddAt(bs, k, path).bs)
      ensures AddAt(bs, k, path).ok == Growth.AddPath(bs[k], path, TotalLength(bs)).ok
    {
      hide Growth.AddPath, Rebuild, Packed, Framed, Holds;
    }

    /** mlib_add_path_to_plist on playlist `k`; without the playlist magic it refuses. */
    method AddPathToPlist(plist: nat, path: Path, ghost bs: seq<seq<byte>>, ghost k: nat)
      returns (ret: int)
      requires plist + 4 <= mem.Length
      requires Load32(plist) == PLIST_MAGIC ==> Carries(bs) && k < |bs| && plist == Offset(bs, k)
      modifies this`mem, mem
      ensures mem == old(mem) || fresh(mem)
      ensures old(Load32(plist)) != PLIST_MAGIC ==> ret == -1 && mem[..] == old(mem[..])
      ensures old(Load32(plist)) == PLIST_MAGIC ==>
        var r := AddAt(bs, k, path);
        && Carries(r.bs) && mem[..] == Rebuild(old(mem[..]), r.bs)
        && ret == if r.ok then 0 else -1
    {
      hide Put32, Splice, Packed, Words, Rebuild, Value32, Image.Holds, Growth.BucketAdd, PlaylistIs, AddAt;
      if Load32(plist) != PLIST_MAGIC {
        return -1;
      }
      ghost var img, b := mem[..], bs[k];
      CarriesIsValid(bs);
      HopTarget(bs, k);
      ret := BucketAdd(plist + BUCKET, path, bs, k);
      BucketAddEffect(b, path, |img|);
      if ret == 0 {
        ghost var c := Growth.BucketAdd(b, path, |img|).block;
        FieldIs(plist + PLIST_MCOUNT, img, bs, k, c, 8);
        EditWord(plist + PLIST_MCOUNT, (Load32(plist + PLIST_MCOUNT) + 1) % LIMIT32, img, bs, k, c, 8);
      }
      CarriesAdded(img, bs, k, path);
    }

    /**
      mlib_add_path. The result of the ".global" addition is ignored, and it has
      happened even when the named playlist turns out not to exist.
     */
    method AddPath(plist: CString, path: Path) returns (ret: int)
      requires Valid(mem[..])
      modifies this`mem, mem
      ensures mem == old(mem) || fresh(mem)
      ensures Valid(mem[..])
      ensures var r := Add(Playlists(old(mem[..])), plist, path);
              && Playlists(mem[..]) == r.bs && mem[..] == Rebuild(old(mem[..]), r.bs)
              && ret == if r.ok then 0 else -1
      ensures Decode(mem[..])
           == AddEntry(Decode(old(mem[..])), plist, path,
                       GlobalHasRoom(Playlists(old(mem[..])), path),
                       TargetHasRoom(Playlists(old(mem[..])), plist, path)).entries
      ensures PathAdded(Decode(old(mem[..])), plist, path, GlobalHasRoom(Playlists(old(mem[..])), path),
                        TargetHasRoom(Playlists(old(mem[..])), plist, path), Decode(mem[..]), ret == 0)
    {
      hide Put32, Splice, Packed, Words, Rebuild, Value32, Image.Holds, AddAt, Playlists;
      ghost var img, bs := mem[..], Playlists(mem[..]);
      CarriesIsValid(bs);
      ghost var cs := bs;
      if StrCmp(plist, GLOBAL) != 0 {
        var global := FindPlaylist(GLOBAL, bs);
        StrCmpZero(plist, GLOBAL);
        if global.None? {
          AddDecodes(img, plist, path, mem[..]);
          return -1;
        }
        HopTarget(bs, Find(bs, GLOBAL).value);
        var _ := AddPathToPlist(global.value, path, bs, Find(bs, GLOBAL).value);
        cs := AddAt(bs, Find(bs, GLOBAL).value, path).bs;
      } else {
        StrCmpZero(plist, GLOBAL);
      }
      CarriesIsValid(cs);
      var target := FindPlaylist(plist, cs);
      if target.None? {
        AddDecodes(img, plist, path, mem[..]);
        return -1;
      }
      HopTarget(cs, Find(cs, plist).value);
      ret := AddPathToPlist(target.value, path, cs, Find(cs, plist).value);
      ghost var ds := AddAt(cs, Find(cs, plist).value, path).bs;
      RebuildTwice(img, cs, ds);
      CarriesIsValid(ds);
      AddDecodes(img, plist, path, mem[..]);
    }

    /** One operation, as a shell command or a client asks for it. */
    method Perform(op: Runs.Op) returns (ret: int)
      requires Valid(mem[..])
      modifies this`mem, mem
      ensures mem == old(mem) || fresh(mem)
      ensures Valid(mem[..]) && Sound(Playlists(old(mem[..])))
      ensures var r := Runs.Step(Playlists(old(mem[..])), op);
              mem[..] == Rebuild(old(mem[..]), r.bs) && ret == if r.ok then 0 else -1
      ensures Runs.Means(Decode(old(mem[..])), op, Runs.FitsOf(Playlists(old(mem[..])), op),
                         Decode(mem[..]), ret == 0)
    {
      hide Valid, Rebuild, Playlists, Start, Delete, Operations.Add, View, Runs.Means, Runs.FitsOf;
      hide PlaylistStarted, PlaylistDeleted, PathAdded, StartEntry, DeleteEntry, AddEntry;
      ghost var img := mem[..];
      ValidIsSound(img);
      match op {
        case StartOp(name) => ret := StartPlaylist(name);
        case AddOp(plist, path) => ret := AddPath(plist, path);
        case DeleteOp(name) => ret := DeletePlaylist(name);
      }
      Runs.StepDecodes(img, op, mem[..]);
    }

    /** One operation after another, whatever each returns, as the shell runs its commands. */
    method PerformAll(ops: seq<Runs.Op>) returns (rets: seq<int>)
      requires Valid(mem[..])
      modifies this`mem, mem
      ensures mem == old(mem) || fresh(mem)
      ensures Valid(mem[..]) && mem[..] == Runs.RunFile(old(mem[..]), ops)
      ensures Sound(Playlists(old(mem[..]))) && rets == Runs.Returns(Playlists(old(mem[..])), ops)
    {
      hide Valid, Rebuild, Playlists, Sound, Runs.Step, Runs.RunFile, Runs.Returns;
      ghost var img := mem[..];
      ValidIsSound(img);
      rets := [];
      assert ops[0..] == ops;
      while |rets| < |ops|
        invariant |rets| <= |ops| && (mem == old(mem) || fresh(mem))
        invariant Valid(mem[..]) && Runs.RunFile(mem[..], ops[|rets|..]) == Runs.RunFile(img, ops)
        invariant Sound(Playlists(mem[..]))
        invariant rets + Runs.Returns(Playlists(mem[..]), ops[|rets|..]) == Runs.Returns(Playlists(img), ops)
      {
        ghost var was, rest := mem[..], ops[|rets|..];
        var ret := Perform(ops[|rets|]);
        Runs.RunFileFirst(was, rest, mem[..]);
        assert rest[1..] == ops[|rets| + 1..];
        rets := rets + [ret];
      }
      assert ops[|rets|..] == [];
      Runs.RunFileNothing(mem[..]);
    }

    /** mlib_find_path: the index slot of the path, if playlist `k` is one and has it. */
    method FindPath(plist: nat, path: CString, ghost bs: seq<seq<byte>>, ghost k: nat)
      returns (slot: Option<nat>)
      requires plist + 4 <= mem.Length
      requires Load32(plist) == PLIST_MAGIC ==> Carries(bs) && k < |bs| && plist == Offset(bs, k)
      ensures slot.Some? <==> Load32(plist) == PLIST_MAGIC && path in Paths(bs[k])
      ensures slot.Some? ==>
        exists i :: 0 <= i < Count(bs[k]) && Paths(bs[k])[i] == path
                    && slot.value == plist + BUCKET + IndexOffs(bs[k]) + 4 * i
    {
      hide Get32, Packed, Words, Paths;
      if Load32(plist) != PLIST_MAGIC {
        return None;
      }
      HopTarget(bs, k);
      BucketFields(plist + BUCKET, bs, k);
      slot := BucketContains(plist + BUCKET, path, bs, k);
    }

    /** mlib_get_path_at. */
    method GetPathAt(plist: nat, index: nat, ghost bs: seq<seq<byte>>, ghost k: nat)
      returns (path: Option<CString>)
      requires Carries(bs) && k < |bs| && plist == Offset(bs, k)
      ensures path == if index < |Paths(bs[k])| then Some(Paths(bs[k])[index]) else None
    {
      hide Value32, Packed, Words, StringAt;
      var bucket := plist + BUCKET;
      assert WellFormed(bs[k]);
      BucketFields(bucket, bs, k);
      var n := BucketNrIndexes(bucket, bs, k);
      if index >= n {
        return None;
      }
      BucketIndex(bucket, bs, k, index);
      var offset := Load32(bucket + Load32(bucket + BUCKET_INDEX_OFFS) + 4 * index);
      return Some(StringAt(mem[..], bucket + BUCKET_STRINGS + offset));
    }

    /** Visits every path of playlist `k` in index order, as mlib_for_each_path does. */
    method ForEachPath(plist: nat, ghost bs: seq<seq<byte>>, ghost k: nat) returns (paths: seq<CString>)
      requires Carries(bs) && k < |bs| && plist == Offset(bs, k)
      ensures paths == Paths(bs[k]) && |paths| == MediaCount(bs[k])
      ensures Ascending(paths, Itself())
    {
      hide Carries, StringsAt, Ascending, Packed, Get32, Words;
      assert WellFormed(bs[k]) by { HopTarget(bs, k); CarriesWellFormed(bs, k); }
      PathsAscend(bs[k]);
      paths := [];
      var path := GetPathAt(plist, 0, bs, k);
      while path.Some?
        invariant paths <= Paths(bs[k])
        invariant path == if |paths| < |Paths(bs[k])| then Some(Paths(bs[k])[|paths|]) else None
        decreases |Paths(bs[k])| - |paths|
      {
        paths := paths + [path.value];
        path := GetPathAt(plist, |paths|, bs, k);
      }
    }

    lemma CarriesWellFormed(bs: seq<seq<byte>>, k: nat)
      requires Carries(bs) && k < |bs|
      ensures WellFormed(bs[k])
    {
    }

    /**
      The image-building part of mlib_create_library: the new file, or none when the
      name or the prefix does not fit its header field.
     */
    static method CreateLibrary(name: CString, prefix: CString) returns (ret: int, lib: Library?)
      ensures ret == if |name| + 1 > LIB_NAME_LEN || |prefix| + 1 > LIB_PREFIX_LEN then -1 else 0
      ensures ret == 0 ==> lib != null && fresh(lib) && fresh(lib.mem)
      ensures ret == 0 ==> Valid(lib.mem[..]) && Playlists(lib.mem[..]) == [FreshPlaylist(GLOBAL)]
      ensures ret == 0 ==>
        StringAt(lib.mem[..], LIB_NAME) == name && StringAt(lib.mem[..], LIB_PREFIX) == prefix
    {
      lib := null;
      if |name| + 1 > LIB_NAME_LEN {
        return -1, lib;
      }
      if |prefix| + 1 > LIB_PREFIX_LEN {
        return -1, lib;
      }
      lib := new Library.Blank(HEADER_SIZE);
      lib.Memset(0, 0);  // The fill and the size are swapped in the call, so nothing is cleared.
      assert lib.mem[..] == Zeros(HEADER_SIZE);
      hide Put32, Splice;
      lib.Store32(0, LIB_MAGIC);
      lib.Store32(LIB_COUNT, 0);
      lib.Store32(LIB_LEN, HEADER_SIZE);
      lib.StoreBytes(LIB_NAME, name + [0]);
      lib.StoreBytes(LIB_PREFIX, prefix + [0]);
      ghost var header := lib.mem[..];
      hide Rebuild, Playlists, FreshPlaylist, StringAt, Valid, Start;
      CreatedHeader(name, prefix);
      var _ := lib.StartPlaylist(GLOBAL);
      CreatedFile(header, name, prefix);
      return 0, lib;
    }
  }
}
