/**
  Bytes, big-endian 32-bit words and the one kind of edit every memory routine
  of the library performs: replacing a range of a byte sequence.
 */
module Bytes {

  type byte = b: int | 0 <= b < 256

  datatype Option<+T> = None | Some(value: T)

  /** One past the largest value of a uint32_t. */
  const LIMIT32: nat := 0x1_0000_0000

  /** The big-endian value of the first `n` bytes. */
  function BigEndian(w: seq<byte>, n: nat): (v: nat)
    requires n <= |w|
    ensures n == 1 ==> v < 0x100
    ensures n == 2 ==> v < 0x1_0000
    ensures n == 3 ==> v < 0x100_0000
    ensures n == 4 ==> v < LIMIT32
  {
    if n == 0 then 0 else BigEndian(w, n - 1) * 0x100 + w[n - 1] as int
  }

  /** be32toh of four bytes. */
  function Value32(w: seq<byte>): (v: nat)
    requires |w| == 4
    ensures v < LIMIT32
  {
    BigEndian(w, 4)
  }

  lemma ValueOfBytes(w: seq<byte>)
    requires |w| == 4
    ensures Value32(w)
         == ((w[0] as int * 0x100 + w[1] as int) * 0x100 + w[2] as int) * 0x100 + w[3] as int
  {
    assert BigEndian(w, 1) == w[0] as int;
    assert BigEndian(w, 2) == BigEndian(w, 1) * 0x100 + w[1] as int;
    assert BigEndian(w, 3) == BigEndian(w, 2) * 0x100 + w[2] as int;
  }

  /** htobe32: the four bytes whose big-endian value is `v`. */
  function Word32(v: nat): (w: seq<byte>)
    requires v < LIMIT32
    ensures |w| == 4 && Value32(w) == v
  {
    var high := v / 0x100;
    var higher := high / 0x100;
    var w := [higher / 0x100, higher % 0x100, high % 0x100, v % 0x100];
    ValueOfBytes(w);
    w
  }

  /** Reading a word and writing it back changes nothing. */
  lemma WordOfValue(w: seq<byte>)
    requires |w| == 4
    ensures Word32(Value32(w)) == w
  {
    var higher := w[0] as int * 0x100 + w[1] as int;
    var high := higher * 0x100 + w[2] as int;
    ValueOfBytes(w);
    assert Value32(w) / 0x100 == high && high / 0x100 == higher && higher / 0x100 == w[0];
  }

  function Zeros(n: nat): (s: seq<byte>)
    ensures |s| == n && forall i :: 0 <= i < n ==> s[i] == 0
  {
    seq(n, _ => 0)
  }

  /** `s` with the range [i, j) replaced by `r`. */
  function Splice(s: seq<byte>, i: nat, j: nat, r: seq<byte>): (t: seq<byte>)
    requires i <= j <= |s|
    ensures |t| == |s| - (j - i) + |r|
  {
    s[..i] + r + s[j..]
  }

  /** The big-endian word stored at offset `o`. */
  function Get32(s: seq<byte>, o: nat): (v: nat)
    requires o + 4 <= |s|
    ensures v < LIMIT32
  {
    Value32(s[o..o + 4])
  }

  /** `s` with the word at offset `o` overwritten by `v`. */
  function Put32(s: seq<byte>, o: nat, v: nat): (t: seq<byte>)
    requires o + 4 <= |s| && v < LIMIT32
    ensures |t| == |s| && Get32(t, o) == v
  {
    var t := Splice(s, o, o + 4, Word32(v));
    assert t[o..o + 4] == Word32(v);
    t
  }

  /** A range that ends before the edit is unchanged. */
  lemma SpliceBefore(s: seq<byte>, i: nat, j: nat, r: seq<byte>, a: nat, c: nat)
    requires i <= j <= |s| && a <= c <= i
    ensures Splice(s, i, j, r)[a..c] == s[a..c]
  {
  }

  /** A range that starts after the edit is the shifted original range. */
  lemma SpliceAfter(s: seq<byte>, i: nat, j: nat, r: seq<byte>, a: nat, c: nat)
    requires i <= j <= |s| && j <= a <= c <= |s|
    ensures Splice(s, i, j, r)[a - j + i + |r|..c - j + i + |r|] == s[a..c]
  {
  }

  /** The edited range holds the new bytes. */
  lemma SpliceWithin(s: seq<byte>, i: nat, j: nat, r: seq<byte>)
    requires i <= j <= |s|
    ensures Splice(s, i, j, r)[i..i + |r|] == r
  {
  }

  /** Overwriting one word leaves every range that avoids it alone. */
  lemma PutKeeps(s: seq<byte>, o: nat, v: nat, a: nat, c: nat)
    requires o + 4 <= |s| && v < LIMIT32
    requires a <= c <= |s| && (c <= o || o + 4 <= a)
    ensures Put32(s, o, v)[a..c] == s[a..c]
  {
  }

  /** What precedes and what follows an overwritten word is unchanged. */
  lemma PutKeepsEnds(s: seq<byte>, o: nat, v: nat, i: nat, j: nat)
    requires i <= o && o + 4 <= j <= |s| && v < LIMIT32
    ensures Put32(s, o, v)[..i] == s[..i] && Put32(s, o, v)[j..] == s[j..]
  {
    hide Word32;
  }

  /** Other words survive an overwritten word. */
  lemma PutKeepsWord(s: seq<byte>, o: nat, v: nat, f: nat)
    requires o + 4 <= |s| && v < LIMIT32 && f + 4 <= |s| && (f + 4 <= o || o + 4 <= f)
    ensures Get32(Put32(s, o, v), f) == Get32(s, f)
  {
    hide Put32, Value32;
    PutKeeps(s, o, v, f, f + 4);
  }

  /** Words before an edit survive it. */
  lemma SpliceKeepsWord(s: seq<byte>, i: nat, j: nat, r: seq<byte>, f: nat)
    requires i <= j <= |s| && f + 4 <= i
    ensures Get32(Splice(s, i, j, r), f) == Get32(s, f)
  {
    hide Splice, Value32;
    SpliceBefore(s, i, j, r, f, f + 4);
  }

  lemma LastOfWindow(s: seq<byte>, a: nat, n: nat)
    requires 0 < n && a + n <= |s|
    ensures s[a..a + n][n - 1] == s[a + n - 1]
  {
  }
}
