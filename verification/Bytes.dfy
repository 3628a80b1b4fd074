/** Bytes, byte ranges and little-endian words. */
module Bytes {
  predicate IsByte(b: int) {
    0 <= b < 256
  }

  predicate AreBytes(s: seq<int>) {
    forall i :: 0 <= i < |s| ==> IsByte(s[i])
  }

  /** At most n bytes of s from offset off: fewer at the end, none past it. */
  function Slice(s: seq<int>, off: nat, n: nat): (r: seq<int>)
    ensures |r| == if off >= |s| then 0 else if off + n <= |s| then n else |s| - off
    ensures forall i :: 0 <= i < |r| ==> r[i] == s[off + i]
  {
    if off >= |s| then [] else s[off..if off + n <= |s| then off + n else |s|]
  }

  /** The buffer with `bytes` stored from position `at` on. */
  function Overwrite(buffer: seq<int>, at: nat, bytes: seq<int>): (r: seq<int>)
    requires at + |bytes| <= |buffer|
    ensures |r| == |buffer|
    ensures forall i :: 0 <= i < |r| ==> r[i] == if at <= i < at + |bytes| then bytes[i - at] else buffer[i]
  {
    buffer[..at] + bytes + buffer[at + |bytes|..]
  }

  lemma OverwriteTwice(buffer: seq<int>, at: nat, a: seq<int>, b: seq<int>)
    requires at + |a| + |b| <= |buffer|
    ensures Overwrite(Overwrite(buffer, at, a), at + |a|, b) == Overwrite(buffer, at, a + b)
  {
  }

  // ---------- words ----------

  function Word(b0: int, b1: int, b2: int, b3: int): int {
    b0 + 0x100 * (b1 + 0x100 * (b2 + 0x100 * b3))
  }

  /** Byte k of w, little-endian two's complement. */
  function ByteOf(w: int, k: nat): int
    decreases k
  {
    if k == 0 then w % 0x100 else ByteOf(w / 0x100, k - 1)
  }

  lemma {:induction false} ZeroByte(k: nat)
    ensures ByteOf(0, k) == 0
    decreases k
  {
    if k > 0 { ZeroByte(k - 1); }
  }

  lemma LowByte(b: int, rest: int)
    requires IsByte(b)
    ensures (b + 0x100 * rest) % 0x100 == b && (b + 0x100 * rest) / 0x100 == rest
  {
  }

  lemma ByteOfWord(b0: int, b1: int, b2: int, b3: int)
    requires IsByte(b0) && IsByte(b1) && IsByte(b2) && IsByte(b3)
    ensures ByteOf(Word(b0, b1, b2, b3), 0) == b0 && ByteOf(Word(b0, b1, b2, b3), 1) == b1
    ensures ByteOf(Word(b0, b1, b2, b3), 2) == b2 && ByteOf(Word(b0, b1, b2, b3), 3) == b3
    ensures 0 <= Word(b0, b1, b2, b3) < 0x1_0000_0000
  {
    LowByte(b2, b3);
    LowByte(b1, b2 + 0x100 * b3);
    LowByte(b0, b1 + 0x100 * (b2 + 0x100 * b3));
    var w1, w2 := b1 + 0x100 * (b2 + 0x100 * b3), b2 + 0x100 * b3;
    assert ByteOf(w2, 0) == b2 && ByteOf(w2, 1) == ByteOf(b3, 0) == b3;
    assert ByteOf(w1, 0) == b1 && ByteOf(w1, 1) == ByteOf(w2, 0) && ByteOf(w1, 2) == ByteOf(w2, 1);
  }

  /** Memory words from bytes. */
  function Words(bytes: seq<int>): (r: seq<int>)
    requires |bytes| % 4 == 0
    ensures |r| == |bytes| / 4
  {
    seq(|bytes| / 4, i requires 0 <= i < |bytes| / 4 => Word(bytes[4 * i], bytes[4 * i + 1], bytes[4 * i + 2], bytes[4 * i + 3]))
  }

  /** The byte a load at position j sees. */
  function Load(words: seq<int>, j: nat): int
    requires j < 4 * |words|
  {
    ByteOf(words[j / 4], j % 4)
  }

  /** Loads give back the bytes stored. */
  lemma LoadWords(bytes: seq<int>, j: nat)
    requires |bytes| % 4 == 0 && AreBytes(bytes) && j < |bytes|
    ensures Load(Words(bytes), j) == bytes[j]
  {
    var i := j / 4;
    ByteOfWord(bytes[4 * i], bytes[4 * i + 1], bytes[4 * i + 2], bytes[4 * i + 3]);
    assert j == 4 * i + j % 4;
  }
}
