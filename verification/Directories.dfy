/** Directories and inodes as bytes on the disk: Ext2::find_one and Ext2::get_node of kernel/ext2.cc, read through the
    buffer cache. */
module Directories {
  import opened Basics
  import opened Bytes
  import opened BufferCaches
  import opened Ext2Files
  import opened FileReads
  import L = Lookups

  // ---------- the reference: a directory is a list of entries ----------

  function Le16(data: seq<int>, at: nat): int
    requires at + 2 <= |data|
  {
    data[at] + 0x100 * data[at + 1]
  }

  /** A record at `at`: inode, record length, name length, type, name; it ends inside the data, and its name has no 0. */
  predicate RecordOk(data: seq<int>, at: nat) {
    && at + 8 <= |data| && 8 + data[at + 6] <= Le16(data, at + 4) && at + Le16(data, at + 4) <= |data|
    && (forall k :: at + 8 <= k < at + 8 + data[at + 6] ==> data[k] != 0)
  }

  predicate DirOk(data: seq<int>, at: nat)
    requires AreBytes(data)
    decreases |data| - at
  {
    at == |data| || (RecordOk(data, at) && DirOk(data, at + Le16(data, at + 4)))
  }

  function Name(data: seq<int>, at: nat): seq<int>
    requires AreBytes(data) && RecordOk(data, at)
  {
    data[at + 8..at + 8 + data[at + 6]]
  }

  function Entries(data: seq<int>, at: nat): seq<L.Entry>
    requires AreBytes(data) && DirOk(data, at)
    decreases |data| - at
  {
    if at == |data| then []
    else [L.Entry(Name(data, at), Le32(data, at))] + Entries(data, at + Le16(data, at + 4))
  }

  /** What a turn of find_one's loop uses: the record lies in the data, its name too, and the lookup goes on after it. */
  lemma NextEntry(data: seq<int>, at: nat, name: seq<int>)
    requires AreBytes(data) && DirOk(data, at) && at < |data|
    ensures at + 8 <= |data| && 0 <= data[at + 6] < 256 && at + 8 + data[at + 6] <= at + Le16(data, at + 4) <= |data|
    ensures NoZero(data[at + 8..at + 8 + data[at + 6]]) && DirOk(data, at + Le16(data, at + 4))
    ensures L.LookupIn(Entries(data, at), name) ==
            if data[at + 8..at + 8 + data[at + 6]] == name then (if Le32(data, at) == 0 then L.Null else L.At(Le32(data, at)))
            else L.LookupIn(Entries(data, at + Le16(data, at + 4)), name)
  {
    assert RecordOk(data, at);
    var rest := Entries(data, at + Le16(data, at + 4));
    assert Entries(data, at)[1..] == rest;
  }

  predicate NoZero(s: seq<int>) {
    forall k :: 0 <= k < |s| ==> s[k] != 0
  }

  lemma FileAreBytes(v: Volume, node: Inode)
    requires NodeOk(v, node)
    ensures AreBytes(FileBytes(v, node))
  {
    hide NodeOk;
    var data := FileBytes(v, node);
    forall i | 0 <= i < |data|
      ensures IsByte(data[i])
    {
      FileIsByte(v, node, i);
    }
  }

  lemma FileIsByte(v: Volume, node: Inode, i: nat)
    requires NodeOk(v, node) && i < node.size
    ensures IsByte(FileBytes(v, node)[i])
  {
    FileIs(v, node, i);
    var b := Physical(v, node, Div(i, v.bs));
    hide NodeOk, Physical, FileBytes, BlockBytes, Div, Mod;
    BlockAreBytes(v, b);
  }

  lemma BlockAreBytes(v: Volume, b: nat)
    requires VolumeOk(v) && InDisk(v, b)
    ensures AreBytes(BlockBytes(v, b))
  {
  }

  /** The file is a well-formed directory. */
  ghost predicate DirIs(v: Volume, dir: Inode)
    requires NodeOk(v, dir)
  {
    FileAreBytes(v, dir);
    DirOk(FileBytes(v, dir), 0)
  }

  ghost function EntriesOf(v: Volume, dir: Inode): seq<L.Entry>
    requires NodeOk(v, dir) && DirIs(v, dir)
  {
    FileAreBytes(v, dir);
    Entries(FileBytes(v, dir), 0)
  }

  /** The name with its terminating 0. */
  function Char(name: seq<int>, i: nat): int
    requires i <= |name|
  {
    if i == |name| then 0 else name[i]
  }

  // ---------- inodes ----------

  const RECORD := 128   // the bytes of an inode that are read

  /** A null node, a node, or the assertion that stops the kernel. */
  datatype Opt = Nothing | Just(inode: Inode) | Stopped

  /** The fields of an inode record in the layout of the second extended file system. */
  function ParseInode(b: seq<int>): Inode
    requires AreBytes(b) && |b| == RECORD
  {
    Inode(b[0] + 0x100 * b[1], Le32(b, 4), seq(12, i requires 0 <= i < 12 => Le32(b, 40 + 4 * i)), Le32(b, 88), Le32(b, 92), Le32(b, 96))
  }

  /** Inode tables by group. */
  datatype Geometry = Geometry(perGroup: nat, inodeSize: nat, tables: seq<nat>, nodes: nat)

  /** Every group's table lies on the disk, and no two tables share a byte. */
  predicate GeometryOk(v: Volume, g: Geometry) {
    && VolumeOk(v) && g.perGroup > 0 && g.inodeSize >= RECORD && g.nodes <= |g.tables| * g.perGroup
    && (forall k :: 0 <= k < |g.tables| ==> g.tables[k] * v.bs + g.perGroup * g.inodeSize <= |v.disk|)
    && (forall j, k :: 0 <= j < k < |g.tables| ==>
          || g.tables[j] * v.bs + g.perGroup * g.inodeSize <= g.tables[k] * v.bs
          || g.tables[k] * v.bs + g.perGroup * g.inodeSize <= g.tables[j] * v.bs)
  }

  function NodeOffset(v: Volume, g: Geometry, number: nat): nat
    requires GeometryOk(v, g) && 0 < number <= g.nodes
  {
    GroupThere(v, g, number);
    g.tables[Div(number - 1, g.perGroup)] * v.bs + Mod(number - 1, g.perGroup) * g.inodeSize
  }

  lemma GroupThere(v: Volume, g: Geometry, number: nat)
    requires GeometryOk(v, g) && 0 < number <= g.nodes
    ensures Div(number - 1, g.perGroup) < |g.tables|
  {
    LessDiv(number - 1, g.perGroup, |g.tables|);
  }

  /** Record k of a table ends inside the table. */
  lemma RecordInTable(k: nat, per: nat, size: nat)
    requires k < per
    ensures 0 <= k * size && k * size + size <= per * size
  {
    MulMono(k + 1, per, size);
    assert (k + 1) * size == k * size + size;
    MulMono(0, k, size);
  }

  lemma OffsetOnDisk(v: Volume, g: Geometry, number: nat)
    requires GeometryOk(v, g) && 0 < number <= g.nodes
    ensures NodeOffset(v, g, number) + g.inodeSize <= |v.disk|
  {
    GroupThere(v, g, number);
    RecordInTable(Mod(number - 1, g.perGroup), g.perGroup, g.inodeSize);
  }

  lemma DiskBytes(v: Volume, g: Geometry, number: nat)
    requires GeometryOk(v, g) && 0 < number <= g.nodes
    ensures VolumeOk(v) && NodeOffset(v, g, number) + RECORD <= |v.disk|
    ensures AreBytes(v.disk[NodeOffset(v, g, number)..NodeOffset(v, g, number) + RECORD])
  {
    OffsetOnDisk(v, g, number);
  }

  /** The inode of a number as the tables on the disk hold it. */
  function NodeOf(v: Volume, g: Geometry, number: nat): Opt
    requires GeometryOk(v, g)
  {
    if number == 0 then Nothing
    else if number > g.nodes then Stopped
    else
      DiskBytes(v, g, number);
      Just(ParseInode(v.disk[NodeOffset(v, g, number)..NodeOffset(v, g, number) + RECORD]))
  }

  lemma DiskIsIo(v: Volume, at: nat)
    requires VolumeOk(v) && at + RECORD <= |v.disk|
    ensures IoOk(v, CacheIO) && Data(v, CacheIO) == v.disk && InBounds(v, CacheIO, at, RECORD) && Count(CacheIO, at, RECORD) == RECORD
  {
  }

  lemma WholeBuffer(was: seq<int>, bytes: seq<int>)
    requires |was| == |bytes|
    ensures Overwrite(was, 0, bytes) == bytes
  {
  }

  /** Different inode numbers have disjoint records. */
  lemma InodesApart(v: Volume, g: Geometry, m: nat, n: nat)
    requires GeometryOk(v, g) && 0 < m <= g.nodes && 0 < n <= g.nodes && m != n
    ensures NodeOffset(v, g, m) + g.inodeSize <= NodeOffset(v, g, n) || NodeOffset(v, g, n) + g.inodeSize <= NodeOffset(v, g, m)
  {
    GroupThere(v, g, m);
    GroupThere(v, g, n);
    var per, size := g.perGroup, g.inodeSize;
    var a, b := Mod(m - 1, per), Mod(n - 1, per);
    RecordInTable(a, per, size);
    RecordInTable(b, per, size);
    if Div(m - 1, per) == Div(n - 1, per) {
      if a < b { RecordInTable(a, b, size); } else { RecordInTable(b, a, size); }
    }
  }

  class Finder {
    const reader: Reader

    constructor (reader: Reader)
      requires reader.Valid()
      ensures this.reader == reader
    {
      this.reader := reader;
    }

    /** read<uint8_t>. */
    method ReadByte(node: Inode, offset: nat) returns (b: int)
      requires reader.Valid() && NodeOk(reader.v, node) && offset < node.size
      modifies reader.cache, reader.cache.indices, reader.cache.nodes
      ensures reader.Valid() && fresh(reader.cache.nodes - old(reader.cache.nodes))
      ensures b == FileBytes(reader.v, node)[offset]
    {
      hide Reader.Valid, NodeOk, FileBytes, VolumeOk;
      NodeIsIo(reader.v, node);
      var out := new int[1];
      var cnt := reader.ReadAll(NodeIO(node), offset, 1, out, 0);
      ghost var word := FileBytes(reader.v, node)[offset..offset + 1];
      assert cnt == 1 && out[..] == word;
      assert out[0] == word[0];
      return out[0];
    }

    method ReadHalf(node: Inode, offset: nat) returns (h: int)
      requires reader.Valid() && NodeOk(reader.v, node) && offset + 2 <= node.size
      modifies reader.cache, reader.cache.indices, reader.cache.nodes
      ensures reader.Valid() && fresh(reader.cache.nodes - old(reader.cache.nodes))
      ensures h == Le16(FileBytes(reader.v, node), offset)
    {
      hide Reader.Valid, NodeOk, FileBytes, VolumeOk;
      NodeIsIo(reader.v, node);
      var out := new int[2];
      var cnt := reader.ReadAll(NodeIO(node), offset, 2, out, 0);
      ghost var word := FileBytes(reader.v, node)[offset..offset + 2];
      assert cnt == 2 && out[..] == word;
      assert out[0] == word[0] && out[1] == word[1];
      return out[0] + 0x100 * out[1];
    }

    method ReadWord(node: Inode, offset: nat) returns (w: nat)
      requires reader.Valid() && NodeOk(reader.v, node) && offset + 4 <= node.size && AreBytes(FileBytes(reader.v, node))
      modifies reader.cache, reader.cache.indices, reader.cache.nodes
      ensures reader.Valid() && fresh(reader.cache.nodes - old(reader.cache.nodes))
      ensures w == Le32(FileBytes(reader.v, node), offset)
    {
      hide Reader.Valid, NodeOk, FileBytes, VolumeOk;
      NodeIsIo(reader.v, node);
      var out := new int[4];
      var cnt := reader.ReadAll(NodeIO(node), offset, 4, out, 0);
      ghost var word := FileBytes(reader.v, node)[offset..offset + 4];
      assert cnt == 4 && out[..] == word;
      assert out[0] == word[0] && out[1] == word[1] && out[2] == word[2] && out[3] == word[3];
      ByteOfWord(out[0], out[1], out[2], out[3]);
      return Word(out[0], out[1], out[2], out[3]);
    }

    /** The inner loop of find_one: compare the stored name with a 0-terminated one, character by character. */
    method SameName(dir: Inode, at: nat, length: nat, name: seq<int>) returns (same: bool)
      requires reader.Valid() && NodeOk(reader.v, dir) && NoZero(name)
      requires at + 8 + length <= dir.size && length < 256 && NoZero(FileBytes(reader.v, dir)[at + 8..at + 8 + length])
      modifies reader.cache, reader.cache.indices, reader.cache.nodes
      ensures reader.Valid() && fresh(reader.cache.nodes - old(reader.cache.nodes))
      ensures same <==> FileBytes(reader.v, dir)[at + 8..at + 8 + length] == name
    {
      hide Reader.Valid, NodeOk, FileBytes;
      ghost var stored := FileBytes(reader.v, dir)[at + 8..at + 8 + length];
      var i := 0;
      while true
        invariant i <= length && i <= |name| && stored[..i] == name[..i]
        invariant reader.Valid() && fresh(reader.cache.nodes - old(reader.cache.nodes))
        decreases length - i
      {
        var c := 0;
        if i != length {
          c := ReadByte(dir, at + 8 + i);
          assert c == stored[i];
        }
        if c != Char(name, i) {
          Differ(stored, name, i);
          return false;
        }
        if i >= length {
          assert stored[..i] == stored && name[..i] == name;
          return true;
        }
        i := i + 1;
      }
    }

    /** An inode record from the disk. */
    method ReadRecord(at: nat) returns (record: seq<int>)
      requires reader.Valid() && VolumeOk(reader.v) && at + RECORD <= |reader.v.disk|
      modifies reader.cache, reader.cache.indices, reader.cache.nodes
      ensures reader.Valid() && fresh(reader.cache.nodes - old(reader.cache.nodes))
      ensures record == reader.v.disk[at..at + RECORD]
    {
      hide Reader.Valid, VolumeOk, Overwrite;
      var out := new int[RECORD];
      ghost var was := out[..];
      DiskIsIo(reader.v, at);
      var cnt := reader.ReadAll(CacheIO, at, RECORD, out, 0);
      WholeBuffer(was, reader.v.disk[at..at + RECORD]);
      return out[..];
    }

    /** get_node: the inode of a number, from the table of its group; a number past the last one stops the kernel. */
    method GetNode(g: Geometry, number: nat) returns (r: Opt)
      requires reader.Valid() && GeometryOk(reader.v, g)
      modifies reader.cache, reader.cache.indices, reader.cache.nodes
      ensures reader.Valid() && fresh(reader.cache.nodes - old(reader.cache.nodes))
      ensures r == NodeOf(reader.v, g, number)
    {
      hide Reader.Valid, GeometryOk, NodeOffset, ParseInode;
      if number == 0 { return Nothing; }
      if number > g.nodes { return Stopped; }
      OffsetOnDisk(reader.v, g, number);
      DiskBytes(reader.v, g, number);
      var record := ReadRecord(NodeOffset(reader.v, g, number));
      return Just(ParseInode(record));
    }

    /** find_one. */
    method FindOne(dir: Inode, name: seq<int>) returns (r: L.Result)
      requires reader.Valid() && NodeOk(reader.v, dir) && NoZero(name)
      requires DirIs(reader.v, dir)
      modifies reader.cache, reader.cache.indices, reader.cache.nodes
      ensures reader.Valid() && fresh(reader.cache.nodes - old(reader.cache.nodes))
      ensures r == L.LookupIn(EntriesOf(reader.v, dir), name)
    {
      hide Reader.Valid, NodeOk, L.LookupIn, Entries, DirOk, FileBytes, Le16, Le32, NoZero, AreBytes;
      FileAreBytes(reader.v, dir);
      ghost var data := FileBytes(reader.v, dir);
      var at := 0;
      while at < dir.size
        invariant at <= dir.size && DirOk(data, at)
        invariant L.LookupIn(Entries(data, at), name) == L.LookupIn(Entries(data, 0), name)
        invariant reader.Valid() && fresh(reader.cache.nodes - old(reader.cache.nodes))
        decreases dir.size - at
      {
        NextEntry(data, at, name);
        var inode := ReadWord(dir, at);
        var size := ReadHalf(dir, at + 4);
        var length := ReadByte(dir, at + 6);
        var same := SameName(dir, at, length, name);
        if same {
          return if inode == 0 then L.Null else L.At(inode);
        }
        at := at + size;
      }
      NoEntry(data, name);
      return L.Null;
    }
  }

  lemma NodeIsIo(v: Volume, node: Inode)
    requires NodeOk(v, node)
    ensures IoOk(v, NodeIO(node)) && Data(v, NodeIO(node)) == FileBytes(v, node)
  {
  }

  lemma NoEntry(data: seq<int>, name: seq<int>)
    requires AreBytes(data) && DirOk(data, |data|)
    ensures L.LookupIn(Entries(data, |data|), name) == L.Null
  {
  }

  lemma Differ(stored: seq<int>, name: seq<int>, i: nat)
    requires i <= |stored| && i <= |name| && (if i < |stored| then stored[i] else 0) != Char(name, i)
    ensures stored != name
  {
  }
}
