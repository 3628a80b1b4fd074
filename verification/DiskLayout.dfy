/** The layout of what is on the disk: words in little-endian order, the fields of an inode record, the place of a record
    in the tables, directory records and the text of a short link, each against a description of its own. */
module DiskLayout {
  import opened Basics
  import opened Bytes
  import opened Ext2Files
  import opened FileReads
  import opened Directories
  import opened DiskLookups
  import L = Lookups

  // ---------- words ----------

  /** Bytes at.. hold the 32-bit number w, lowest byte first. */
  predicate HasWord(b: seq<int>, at: nat, w: nat)
    requires at + 4 <= |b|
  {
    b[at] == w % 0x100 && b[at + 1] == w / 0x100 % 0x100 && b[at + 2] == w / 0x1_0000 % 0x100 && b[at + 3] == w / 0x100_0000
  }

  lemma WordIs(b: seq<int>, at: nat, w: nat)
    requires AreBytes(b) && at + 4 <= |b| && w < U32
    ensures Le32(b, at) == w <==> HasWord(b, at, w)
  {
    WordDigits(b[at], b[at + 1], b[at + 2], b[at + 3]);
    FromDigits(w);
  }

  lemma WordDigits(b0: int, b1: int, b2: int, b3: int)
    requires IsByte(b0) && IsByte(b1) && IsByte(b2) && IsByte(b3)
    ensures var w := Word(b0, b1, b2, b3); 0 <= w && w % 0x100 == b0 && w / 0x100 % 0x100 == b1 && w / 0x1_0000 % 0x100 == b2 && w / 0x100_0000 == b3
  {
    LowByte(b0, b1 + 0x100 * (b2 + 0x100 * b3));
    LowByte(b1, b2 + 0x100 * b3);
    LowByte(b2, b3);
    Halves(Word(b0, b1, b2, b3));
  }

  lemma Halves(w: nat)
    ensures w / 0x1_0000 == w / 0x100 / 0x100 && w / 0x100_0000 == w / 0x100 / 0x100 / 0x100
  {
  }

  lemma FromDigits(w: nat)
    requires w < U32
    ensures Word(w % 0x100, w / 0x100 % 0x100, w / 0x1_0000 % 0x100, w / 0x100_0000) == w
  {
    Halves(w);
  }

  lemma WordBelow(b: seq<int>, at: nat)
    requires AreBytes(b) && at + 4 <= |b|
    ensures Le32(b, at) < U32
  {
    ByteOfWord(b[at], b[at + 1], b[at + 2], b[at + 3]);
  }

  predicate HasHalf(b: seq<int>, at: nat, h: nat)
    requires at + 2 <= |b|
  {
    b[at] == h % 0x100 && b[at + 1] == h / 0x100
  }

  lemma HalfIs(b: seq<int>, at: nat, h: nat)
    requires AreBytes(b) && at + 2 <= |b|
    ensures Le16(b, at) == h <==> HasHalf(b, at, h)
  {
  }

  /** Entry i of the table in block b is the word at byte 4 * i of the block. */
  lemma TableEntry(v: Volume, b: nat, i: nat, w: nat)
    requires VolumeOk(v) && b != 0 && InDisk(v, b) && i < Refs(v) && w < U32
    ensures 0 <= b * v.bs + 4 * i && b * v.bs + 4 * i + 4 <= |v.disk|
    ensures Ref(v, b, i) == w <==> HasWord(v.disk, b * v.bs + 4 * i, w)
  {
    InBlock(v, b, i);
    WordIs(v.disk, b * v.bs + 4 * i, w);
  }

  // ---------- inodes ----------

  /** The record holds the inode: mode at 0, size at 4, twelve direct blocks from 40, the three tables after them. */
  predicate HasInode(b: seq<int>, n: Inode)
    requires |b| == 128 && |n.direct| == 12
  {
    && HasHalf(b, 0, n.mode) && HasWord(b, 4, n.size)
    && (forall k {:trigger n.direct[k]} :: 0 <= k < 12 ==> HasWord(b, 40 + 4 * k, n.direct[k]))
    && HasWord(b, 88, n.ind1) && HasWord(b, 92, n.ind2) && HasWord(b, 96, n.ind3)
  }

  predicate InodeFits(n: Inode) {
    && |n.direct| == 12 && n.mode < 0x1_0000 && n.size < U32 && n.ind1 < U32 && n.ind2 < U32 && n.ind3 < U32
    && forall k :: 0 <= k < 12 ==> n.direct[k] < U32
  }

  /** A record is read as the inode it holds, and as no other. */
  lemma InodeIsHeld(b: seq<int>, n: Inode)
    requires AreBytes(b) && |b| == 128 && InodeFits(n)
    ensures ParseInode(b) == n <==> HasInode(b, n)
  {
    hide HasWord, HasHalf, Le32;
    HalfIs(b, 0, n.mode);
    WordIs(b, 4, n.size);
    WordIs(b, 88, n.ind1);
    WordIs(b, 92, n.ind2);
    WordIs(b, 96, n.ind3);
    var p := ParseInode(b);
    forall k {:trigger n.direct[k]} | 0 <= k < 12
      ensures p.direct[k] == n.direct[k] <==> HasWord(b, 40 + 4 * k, n.direct[k])
    {
      WordIs(b, 40 + 4 * k, n.direct[k]);
    }
    if HasInode(b, n) { assert p.direct == n.direct; }
    assert p == n ==> p.direct == n.direct && p.mode == n.mode && p.size == n.size;
    assert p.mode == Le16(b, 0);
  }

  /** The nibble above the permission bits makes a node a directory with the entries of its file, a link with its text, or
      neither. */
  lemma KindIs(v: Volume, g: Geometry, k: nat)
    requires DiskOk(v, g) && 0 < k <= g.nodes
    ensures k in FsOf(v, g).nodes && NodeOf(v, g, k).Just? && InodeOk(v, g, NodeOf(v, g, k).inode)
    ensures var n, node := NodeOf(v, g, k).inode, FsOf(v, g).nodes[k];
            && (0x4000 <= n.mode <= 0x4FFF ==> NodeOk(v, n) && DirIs(v, n) && node == L.DirNode(EntriesOf(v, n)))
            && (0xA000 <= n.mode <= 0xAFFF ==> node == L.LinkNode(Text(Target(v, n))))
            && (node.DirNode? ==> 0x4000 <= n.mode <= 0x4FFF) && (node.LinkNode? ==> 0xA000 <= n.mode <= 0xAFFF)
  {
    hide DirIs, EntriesOf, NodeOk, GeometryOk, WordsOk;
    assert IsNumber(g, k);
    NodeAt(v, g, k);
  }

  /** Inode number q * perGroup + k + 1 is record k of table q. */
  lemma RecordIs(v: Volume, g: Geometry, q: nat, k: nat)
    requires GeometryOk(v, g) && k < g.perGroup && q * g.perGroup + k + 1 <= g.nodes
    ensures 0 <= q * g.perGroup && q < |g.tables| && NodeOffset(v, g, q * g.perGroup + k + 1) == g.tables[q] * v.bs + k * g.inodeSize
  {
    DivIs(q, k, g.perGroup);
    GroupThere(v, g, q * g.perGroup + k + 1);
  }

  /** The text of a link of fewer than 60 bytes is kept where the block numbers of a longer file are. */
  lemma ShortText(v: Volume, b: seq<int>)
    requires AreBytes(b) && |b| == 128 && ShortLink(ParseInode(b))
    ensures WordsOk(ParseInode(b)) && Target(v, ParseInode(b)) == b[40..40 + ParseInode(b).size]
  {
    hide Le32;
    var n := ParseInode(b);
    forall i | 0 <= i < 15
      ensures BlockWords(n)[i] == Le32(b, 40 + 4 * i) && BlockWords(n)[i] < U32
    {
      WordBelow(b, 40 + 4 * i);
    }
    forall j | 0 <= j < n.size
      ensures RawBytes(n)[j] == b[40 + j]
    {
      RawByte(b, j);
    }
    assert RawBytes(n)[..n.size] == b[40..40 + n.size];
  }

  lemma RawByte(b: seq<int>, j: nat)
    requires AreBytes(b) && |b| == 128 && j < 60
    ensures ByteOf(Le32(b, 40 + 4 * (j / 4)), j % 4) == b[40 + j]
  {
    var at := 40 + 4 * (j / 4);
    ByteOfWord(b[at], b[at + 1], b[at + 2], b[at + 3]);
    assert 40 + j == at + j % 4;
  }

  // ---------- directories ----------

  /** A directory record: the entry, its type byte, and unused bytes up to the next record. */
  datatype Record = Record(inode: nat, name: seq<int>, kind: int, pad: seq<int>)

  predicate Fits(r: Record) {
    && r.inode < U32 && |r.name| < 256 && 8 + |r.name| + |r.pad| < 0x1_0000
    && AreBytes(r.name) && NoZero(r.name) && IsByte(r.kind) && AreBytes(r.pad)
  }

  function Encode(r: Record): (b: seq<int>)
    ensures |b| == 8 + |r.name| + |r.pad|
  {
    var size := 8 + |r.name| + |r.pad|;
    [r.inode % 0x100, r.inode / 0x100 % 0x100, r.inode / 0x1_0000 % 0x100, r.inode / 0x100_0000,
     size % 0x100, size / 0x100, |r.name|, r.kind] + r.name + r.pad
  }

  function EncodeAll(rs: seq<Record>): seq<int> {
    if rs == [] then [] else Encode(rs[0]) + EncodeAll(rs[1..])
  }

  function RecordEntries(rs: seq<Record>): seq<L.Entry> {
    seq(|rs|, i requires 0 <= i < |rs| => L.Entry(rs[i].name, rs[i].inode))
  }

  lemma {:induction false} EncodedBytes(rs: seq<Record>)
    requires forall i :: 0 <= i < |rs| ==> Fits(rs[i])
    ensures AreBytes(EncodeAll(rs))
  {
    if rs != [] {
      EncodedBytes(rs[1..]);
      assert AreBytes(Encode(rs[0]));
    }
  }

  lemma EncodeIs(r: Record)
    requires Fits(r)
    ensures var b := Encode(r);
            && AreBytes(b) && HasWord(b, 0, r.inode) && HasHalf(b, 4, |b|) && b[6] == |r.name|
            && b[8..8 + |r.name|] == r.name
  {
  }

  /** Words and bytes of a record are found where it lies in the data. */
  lemma Shifted(pre: seq<int>, b: seq<int>, post: seq<int>)
    requires AreBytes(pre) && AreBytes(b) && AreBytes(post) && |b| >= 8
    ensures var data, at := pre + b + post, |pre|;
            && AreBytes(data) && data[at..at + |b|] == b && Le32(data, at) == Le32(b, 0) && Le16(data, at + 4) == Le16(b, 4) && data[at + 6] == b[6]
  {
    var data, at := pre + b + post, |pre|;
    assert forall i :: 0 <= i < |b| ==> data[at + i] == b[i];
    assert AreBytes(data);
  }

  /** A record inside the data is read as what was encoded. */
  lemma OneRecord(pre: seq<int>, r: Record, post: seq<int>)
    requires AreBytes(pre) && AreBytes(post) && Fits(r)
    ensures var data, at := pre + Encode(r) + post, |pre|;
            && AreBytes(data) && RecordOk(data, at) && Le16(data, at + 4) == |Encode(r)|
            && Name(data, at) == r.name && Le32(data, at) == r.inode
  {
    hide Encode, Le32, Le16, HasWord, HasHalf;
    var b := Encode(r);
    EncodeIs(r);
    Shifted(pre, b, post);
    WordIs(b, 0, r.inode);
    HalfIs(b, 4, |b|);
    var data, at := pre + b + post, |pre|;
    NamePart(data, at, b, r.name);
  }

  lemma NamePart(data: seq<int>, at: nat, b: seq<int>, name: seq<int>)
    requires at + |b| <= |data| && data[at..at + |b|] == b && 8 + |name| <= |b| && b[8..8 + |name|] == name && NoZero(name)
    ensures data[at + 8..at + 8 + |name|] == name
    ensures forall k :: at + 8 <= k < at + 8 + |name| ==> data[k] != 0
  {
    forall k | at + 8 <= k < at + 8 + |name|
      ensures data[k] == name[k - at - 8]
    {
      assert data[k] == data[at..at + |b|][k - at] == b[k - at];
      assert b[k - at] == b[8..8 + |name|][k - at - 8];
    }
  }

  /** Round trip: a directory file made of any records is well formed, and its entries are those records in order. */
  lemma {:induction false} DirectoryRoundTrip(pre: seq<int>, rs: seq<Record>)
    requires AreBytes(pre) && forall i :: 0 <= i < |rs| ==> Fits(rs[i])
    ensures AreBytes(pre + EncodeAll(rs)) && DirOk(pre + EncodeAll(rs), |pre|)
    ensures Entries(pre + EncodeAll(rs), |pre|) == RecordEntries(rs)
    decreases |rs|
  {
    hide RecordOk, Name, Le32, Le16, Encode;
    EncodedBytes(rs);
    var data := pre + EncodeAll(rs);
    if rs != [] {
      EncodedBytes(rs[1..]);
      OneRecord(pre, rs[0], EncodeAll(rs[1..]));
      assert data == pre + Encode(rs[0]) + EncodeAll(rs[1..]);
      var next := pre + Encode(rs[0]);
      EncodeIs(rs[0]);
      DirectoryRoundTrip(next, rs[1..]);
      assert RecordEntries(rs) == [L.Entry(rs[0].name, rs[0].inode)] + RecordEntries(rs[1..]);
    }
  }
}
