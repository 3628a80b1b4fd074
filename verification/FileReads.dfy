/** BlockIO::read and read_all of kernel/block_io.cc over the buffer cache and over an inode: one code, two block
    sizes, the second reading through the first. */
module FileReads {
  import opened Basics
  import opened Bytes
  import opened BufferCaches
  import opened Ext2Files

  /** What is read from: the cached disk, or a file on it. */
  datatype IO = CacheIO | NodeIO(node: Inode)

  function BlockSize(v: Volume, io: IO): nat {
    if io.CacheIO? then SECTOR else v.bs
  }

  /** size_in_bytes; the disk driver does not know its size and says 0xFFFFFFFF. */
  function SizeOf(io: IO): nat {
    if io.CacheIO? then U32 - 1 else io.node.size
  }

  ghost predicate IoOk(v: Volume, io: IO) {
    VolumeOk(v) && (io.NodeIO? ==> NodeOk(v, io.node))
  }

  /** The bytes behind io. */
  ghost function Data(v: Volume, io: IO): seq<int>
    requires IoOk(v, io)
  {
    if io.CacheIO? then v.disk else FileBytes(v, io.node)
  }

  ghost predicate HasBlock(v: Volume, io: IO, n: nat)
    requires IoOk(v, io)
  {
    if io.CacheIO? then SECTOR * (n + 1) <= |v.disk| else n < Reach(v) && WayOk(v, io.node, n)
  }

  ghost function BlockAt(v: Volume, io: IO, n: nat): (r: seq<int>)
    requires IoOk(v, io) && HasBlock(v, io, n)
    ensures |r| == BlockSize(v, io)
  {
    if io.CacheIO? then v.disk[SECTOR * n..SECTOR * (n + 1)] else BlockBytes(v, Physical(v, io.node, n))
  }

  /** The block of a position inside the data exists. */
  lemma BlockThere(v: Volume, io: IO, offset: nat)
    requires IoOk(v, io) && offset < |Data(v, io)|
    ensures BlockSize(v, io) > 0 && HasBlock(v, io, Div(offset, BlockSize(v, io)))
  {
    var n := Div(offset, BlockSize(v, io));
    if io.CacheIO? {
      SectorThere(|v.disk|, offset);
    } else {
      FileFits(v, io.node.size, n);
      assert WayOk(v, io.node, n);
    }
  }

  lemma SectorThere(size: nat, offset: nat)
    requires size % SECTOR == 0 && offset < size
    ensures SECTOR * (Div(offset, SECTOR) + 1) <= size
  {
    assert Div(offset, SECTOR) == offset / SECTOR;
  }

  /** Part of a block is the data at that position. */
  lemma BlockIsData(v: Volume, io: IO, offset: nat, len: nat)
    requires IoOk(v, io) && offset + len <= |Data(v, io)| && BlockSize(v, io) > 0
    requires HasBlock(v, io, Div(offset, BlockSize(v, io))) && Mod(offset, BlockSize(v, io)) + len <= BlockSize(v, io)
    ensures var k := Mod(offset, BlockSize(v, io));
            BlockAt(v, io, Div(offset, BlockSize(v, io)))[k..k + len] == Data(v, io)[offset..offset + len]
  {
    hide WayOk, Physical, BlockBytes, NodeOk, Div, Mod, VolumeOk, Reach;
    var bs := BlockSize(v, io);
    var n, k := Div(offset, bs), Mod(offset, bs);
    if io.CacheIO? {
      SliceOfSlice(v.disk, SECTOR * n, SECTOR * (n + 1), k, len);
    } else {
      var part, data := BlockAt(v, io, n)[k..k + len], Data(v, io)[offset..offset + len];
      forall j | 0 <= j < len
        ensures part[j] == data[j]
      {
        ByteIsData(v, io.node, offset, j);
      }
    }
  }

  lemma SliceOfSlice(s: seq<int>, a: nat, b: nat, k: nat, len: nat)
    requires a + k + len <= b <= |s|
    ensures s[a..b][k..k + len] == s[a + k..a + k + len]
  {
    var x, y := s[a..b][k..k + len], s[a + k..a + k + len];
    assert |x| == |y| && forall i :: 0 <= i < len ==> x[i] == y[i];
  }

  lemma ByteIsData(v: Volume, node: Inode, offset: nat, j: nat)
    requires NodeOk(v, node) && offset + j < node.size && Mod(offset, v.bs) + j < v.bs && WayOk(v, node, Div(offset, v.bs))
    ensures BlockBytes(v, Physical(v, node, Div(offset, v.bs)))[Mod(offset, v.bs) + j] == FileBytes(v, node)[offset + j]
  {
    hide Physical, BlockBytes, NodeOk, Blocks;
    SameBlock(offset, j, v.bs);
    FileIs(v, node, offset + j);
  }

  /** The byte through the code's block number is the byte of the file. */
  lemma FileIs(v: Volume, node: Inode, i: nat)
    requires NodeOk(v, node) && i < node.size
    ensures WayOk(v, node, Div(i, v.bs))
    ensures FileBytes(v, node)[i] == BlockBytes(v, Physical(v, node, Div(i, v.bs)))[Mod(i, v.bs)]
  {
    var n := Div(i, v.bs);
    assert WayOk(v, node, n);
    hide Physical, BlockBytes, NodeOk, Blocks;
    FileFits(v, node.size, n);
    PhysicalIsListed(v, node, n);
  }

  lemma SameBlock(a: nat, j: nat, n: nat)
    requires n > 0 && Mod(a, n) + j < n
    ensures Div(a + j, n) == Div(a, n) && Mod(a + j, n) == Mod(a, n) + j
  {
    Unique(Div(a, n), Mod(a, n) + j, Div(a + j, n), Mod(a + j, n), n);
  }

  lemma Unique(q: nat, m: nat, p: nat, k: nat, n: nat)
    requires m < n && k < n && q * n + m == p * n + k
    ensures q == p && m == k
  {
    assert (q + 1) * n == q * n + n && (p + 1) * n == p * n + n;
    if q < p {
      MulMono(q + 1, p, n);
    } else if p < q {
      MulMono(p + 1, q, n);
    }
  }

  function Min(a: nat, b: nat): nat {
    if a < b then a else b
  }

  function Rank(io: IO): nat {
    if io.CacheIO? then 0 else 1
  }

  /** What read delivers in one go: up to the end of the block. */
  function Chunk(v: Volume, io: IO, offset: nat, n: nat): nat
    requires BlockSize(v, io) > 0 && offset <= SizeOf(io)
  {
    Min(BlockSize(v, io) - Mod(offset, BlockSize(v, io)), Min(n, SizeOf(io) - offset))
  }

  lemma ChunkBounds(v: Volume, io: IO, offset: nat, n: nat)
    requires BlockSize(v, io) > 0 && offset < SizeOf(io)
    ensures Chunk(v, io, offset, n) <= n && offset + Chunk(v, io, offset, n) <= SizeOf(io)
    ensures n > 0 ==> Chunk(v, io, offset, n) > 0
    ensures Chunk(v, io, offset, n) == Min(BlockSize(v, io) - Mod(offset, BlockSize(v, io)), Min(n, SizeOf(io) - offset))
  {
  }

  /** What read_all returns, and the bytes it stores: nothing for n == 0 wherever offset is, -1 past the end. */
  function Count(io: IO, offset: nat, n: nat): int {
    if n == 0 then 0 else if offset > SizeOf(io) then -1 else Min(n, SizeOf(io) - offset)
  }

  /** What the comment in kernel/block_io.h promises for read_all. */
  function Promised(io: IO, offset: nat, n: nat): int {
    if offset > SizeOf(io) then -1 else Min(n, SizeOf(io) - offset)
  }

  /** read_all keeps that promise except for empty reads past the end, which it reports as 0 bytes. */
  lemma PromiseKeptIff(io: IO, offset: nat, n: nat)
    ensures Count(io, offset, n) == Promised(io, offset, n) <==> n > 0 || offset <= SizeOf(io)
  {
  }

  /** The disk driver reports 0xFFFFFFFF bytes, so for every offset below that neither early return of read is taken, and the
      sector asked for is on the disk exactly when the offset is. */
  lemma DiskEndUnseen(v: Volume, offset: nat)
    requires VolumeOk(v) && offset < U32 - 1
    ensures !(offset > SizeOf(CacheIO)) && offset != SizeOf(CacheIO)
    ensures HasBlock(v, CacheIO, Div(offset, SECTOR)) <==> offset < |v.disk|
  {
    if offset < |v.disk| { SectorThere(|v.disk|, offset); }
    assert offset < SECTOR * (Div(offset, SECTOR) + 1);
  }

  /** Reads of the disk stay on the disk; reads of a file may ask for anything. */
  predicate InBounds(v: Volume, io: IO, offset: nat, n: nat) {
    io.CacheIO? ==> offset + n <= |v.disk|
  }

  lemma DataSize(v: Volume, io: IO, offset: nat, n: nat)
    requires IoOk(v, io) && InBounds(v, io, offset, n)
    ensures offset <= SizeOf(io) ==> offset + Min(n, SizeOf(io) - offset) <= |Data(v, io)|
    ensures io.CacheIO? ==> offset + n <= SizeOf(io)
    ensures offset < SizeOf(io) && (io.NodeIO? || n > 0) ==> offset < |Data(v, io)|
  {
  }

  class Reader {
    const cache: BufferCache
    const v: Volume

    ghost predicate Valid()
      reads cache`nodes, cache.indices, cache.nodes
    {
      cache.Valid() && VolumeOk(v) && cache.disk == v.disk
    }

    constructor (cache: BufferCache, v: Volume)
      requires cache.Valid() && VolumeOk(v) && cache.disk == v.disk
      ensures Valid() && this.cache == cache && this.v == v
    {
      this.cache := cache;
      this.v := v;
    }

    method ReadBlock(io: IO, n: nat, buffer: array<int>, at: nat)
      requires Valid() && IoOk(v, io) && HasBlock(v, io, n) && at + BlockSize(v, io) <= buffer.Length
      modifies cache, cache.indices, cache.nodes, buffer
      ensures Valid() && fresh(cache.nodes - old(cache.nodes))
      ensures buffer[..] == Overwrite(old(buffer[..]), at, BlockAt(v, io, n))
      decreases Rank(io), 3
    {
      if io.CacheIO? {
        cache.ReadBlock(n, buffer, at);
      } else {
        ReadNodeBlock(io.node, n, buffer, at);
      }
    }

    /** BlockIO::read. */
    method Read(io: IO, offset: nat, n: nat, buffer: array<int>, at: nat) returns (cnt: int)
      requires Valid() && IoOk(v, io) && at + n <= buffer.Length && InBounds(v, io, offset, n) && (io.CacheIO? ==> n > 0)
      modifies cache, cache.indices, cache.nodes, buffer
      ensures Valid() && fresh(cache.nodes - old(cache.nodes))
      ensures offset > SizeOf(io) ==> cnt == -1 && buffer[..] == old(buffer[..])
      ensures offset == SizeOf(io) ==> cnt == 0 && buffer[..] == old(buffer[..])
      ensures offset < SizeOf(io) ==> BlockSize(v, io) > 0 && 0 <= cnt == Chunk(v, io, offset, n) <= n && offset + cnt <= |Data(v, io)|
      ensures offset < SizeOf(io) ==> (n > 0 ==> cnt > 0) && offset + cnt <= SizeOf(io)
      ensures offset < SizeOf(io) ==> buffer[..] == Overwrite(old(buffer[..]), at, Data(v, io)[offset..offset + cnt])
      decreases Rank(io), 5
    {
      hide Valid, NodeOk, WayOk, Data, BlockAt, HasBlock, IoOk, VolumeOk, Div, Mod, Overwrite, Chunk, BlockSize, SizeOf, Rank;
      var sz := SizeOf(io);
      if offset > sz { return -1; }
      if offset == sz { return 0; }
      var bs := BlockSize(v, io);
      var want := Min(n, sz - offset);
      DataSize(v, io, offset, n);
      BlockThere(v, io, offset);
      var block, inside := Div(offset, bs), Mod(offset, bs);
      var actual := Min(bs - inside, want);
      BlockIsData(v, io, offset, actual);
      ChunkBounds(v, io, offset, n);
      if actual == bs {
        ReadBlock(io, block, buffer, at);
        assert BlockAt(v, io, block)[0..bs] == BlockAt(v, io, block);
      } else {
        ReadPart(io, block, inside, actual, buffer, at);
      }
      return actual;
    }

    /** A partial block goes through a temporary buffer. */
    method ReadPart(io: IO, n: nat, inside: nat, len: nat, buffer: array<int>, at: nat)
      requires Valid() && IoOk(v, io) && HasBlock(v, io, n) && inside + len <= BlockSize(v, io) && at + len <= buffer.Length
      modifies cache, cache.indices, cache.nodes, buffer
      ensures Valid() && fresh(cache.nodes - old(cache.nodes))
      ensures buffer[..] == Overwrite(old(buffer[..]), at, BlockAt(v, io, n)[inside..inside + len])
      decreases Rank(io), 4
    {
      hide BufferCache.Valid, BufferCache.Owned, NodeOk, WayOk, Physical, BlockAt, HasBlock, IoOk, VolumeOk;
      var temp := new int[BlockSize(v, io)];
      ReadBlock(io, n, temp, 0);
      assert temp[..] == BlockAt(v, io, n);
      assert buffer[..] == old(buffer[..]);
      assert temp[inside..inside + len] == temp[..][inside..inside + len];
      CopyInto(buffer, at, temp[inside..inside + len]);
    }

    /** BlockIO::read_all. */
    method ReadAll(io: IO, offset: nat, n: nat, buffer: array<int>, at: nat) returns (cnt: int)
      requires Valid() && IoOk(v, io) && at + n <= buffer.Length && InBounds(v, io, offset, n)
      modifies cache, cache.indices, cache.nodes, buffer
      ensures Valid() && fresh(cache.nodes - old(cache.nodes))
      ensures cnt == Count(io, offset, n)
      ensures cnt <= 0 ==> buffer[..] == old(buffer[..])
      ensures cnt > 0 ==> offset + cnt <= |Data(v, io)| && buffer[..] == Overwrite(old(buffer[..]), at, Data(v, io)[offset..offset + cnt])
      decreases Rank(io), 6
    {
      hide Valid, NodeOk, WayOk, Data, BlockAt, HasBlock, IoOk, VolumeOk, Div, Mod, Filled, Chunk, SizeOf, BlockSize, Overwrite, Rank;
      var total, off, left, pos := 0, offset, n, at;
      DataSize(v, io, offset, n);
      ghost var was := buffer[..];
      FilledStart(was, at, Data(v, io), offset);
      while left > 0
        invariant 0 <= total <= n && off == offset + total && left == n - total && pos == at + total
        invariant total > 0 ==> off <= SizeOf(io) && off <= |Data(v, io)|
        invariant buffer[..] == Filled(was, at, Data(v, io), offset, total)
        invariant Valid() && fresh(cache.nodes - old(cache.nodes))
        decreases left
      {
        var got := Read(io, off, left, buffer, pos);
        if got < 0 { return got; }
        if got == 0 {
          FilledIs(was, at, Data(v, io), offset, total);
          return total;
        }
        Extend(was, at, Data(v, io), offset, total, got);
        total := total + got;
        off := off + got;
        left := left - got;
        pos := pos + got;
      }
      FilledIs(was, at, Data(v, io), offset, total);
      return total;
    }

    /** One level of indirection. */
    method FollowRef(b: nat, i: nat) returns (r: nat)
      requires Valid() && i < Refs(v) && InDisk(v, b)
      modifies cache, cache.indices, cache.nodes
      ensures Valid() && fresh(cache.nodes - old(cache.nodes))
      ensures r == Follow(v, b, i)
      decreases 1, 0
    {
      if b == 0 { return 0; }
      InBlock(v, b, i);
      var out := new int[4];
      var cnt := ReadAll(CacheIO, b * v.bs + i * 4, 4, out, 0);
      ghost var word := v.disk[b * v.bs + 4 * i..b * v.bs + 4 * i + 4];
      assert cnt == 4 && out[..] == word;
      assert out[0] == word[0] && out[1] == word[1] && out[2] == word[2] && out[3] == word[3];
      ByteOfWord(out[0], out[1], out[2], out[3]);
      return Word(out[0], out[1], out[2], out[3]);
    }

    /** The block number of logical block lbn: the branches of Node::read_block. */
    method Locate(node: Inode, lbn: nat) returns (b: nat)
      requires Valid() && |node.direct| == 12 && lbn < Reach(v) && WayOk(v, node, lbn)
      modifies cache, cache.indices, cache.nodes
      ensures Valid() && fresh(cache.nodes - old(cache.nodes))
      ensures b == Physical(v, node, lbn)
      decreases 1, 1
    {
      var r := Refs(v);
      var rr := Square(r);
      var l := lbn;
      if l < 12 { return node.direct[l]; }
      l := l - 12;
      if l < r {
        b := FollowRef(node.ind1, l);
        return;
      }
      l := l - r;
      if l < rr {
        LessDiv(l, r, r);
        b := FollowRef(node.ind2, Div(l, r));
        b := FollowRef(b, Mod(l, r));
        return;
      }
      l := l - rr;
      Digits(l, r);
      var d0, t := Mod(l, r), Div(l, r);
      var d1, d2 := Mod(t, r), Div(t, r);
      b := FollowRef(node.ind3, d2);
      b := FollowRef(b, d1);
      b := FollowRef(b, d0);
    }

    /** Node::read_block: a hole reads as zeros. */
    method ReadNodeBlock(node: Inode, lbn: nat, buffer: array<int>, at: nat)
      requires Valid() && |node.direct| == 12 && lbn < Reach(v) && WayOk(v, node, lbn) && at + v.bs <= buffer.Length
      modifies cache, cache.indices, cache.nodes, buffer
      ensures Valid() && fresh(cache.nodes - old(cache.nodes))
      ensures buffer[..] == Overwrite(old(buffer[..]), at, BlockBytes(v, Physical(v, node, lbn)))
      ensures var b := Physical(v, node, lbn);
              && (b == 0 ==> forall k :: at <= k < at + v.bs ==> buffer[k] == 0)
              && (b != 0 ==> 0 <= b * v.bs <= |v.disk| - v.bs && buffer[at..at + v.bs] == v.disk[b * v.bs..b * v.bs + v.bs])
      decreases 1, 2
    {
      hide BufferCache.Valid, BufferCache.Owned, Physical, Div, Mod, Follow, Square;
      var b := Locate(node, lbn);
      assert buffer[..] == old(buffer[..]);
      if b == 0 {
        CopyInto(buffer, at, seq(v.bs, i => 0));
      } else {
        assert (b + 1) * v.bs == b * v.bs + v.bs;
        var cnt := ReadAll(CacheIO, b * v.bs, v.bs, buffer, at);
      }
    }
  }

  /** A buffer after the first `total` bytes have arrived. */
  ghost function Filled(was: seq<int>, at: nat, data: seq<int>, offset: nat, total: nat): (r: seq<int>)
    requires at + total <= |was| && (total > 0 ==> offset + total <= |data|)
    ensures |r| == |was|
  {
    if total == 0 then was else Overwrite(was, at, data[offset..offset + total])
  }

  lemma FilledStart(was: seq<int>, at: nat, data: seq<int>, offset: nat)
    requires at <= |was|
    ensures Filled(was, at, data, offset, 0) == was
  {
  }

  lemma FilledIs(was: seq<int>, at: nat, data: seq<int>, offset: nat, total: nat)
    requires at + total <= |was| && (total > 0 ==> offset + total <= |data|)
    ensures total == 0 ==> Filled(was, at, data, offset, total) == was
    ensures total > 0 ==> Filled(was, at, data, offset, total) == Overwrite(was, at, data[offset..offset + total])
  {
  }

  /** One more chunk after `total` bytes. */
  lemma Extend(was: seq<int>, at: nat, data: seq<int>, offset: nat, total: nat, got: nat)
    requires at + total + got <= |was| && offset + total + got <= |data|
    ensures Overwrite(Filled(was, at, data, offset, total), at + total, data[offset + total..offset + total + got])
            == Filled(was, at, data, offset, total + got)
  {
    var a, b := data[offset..offset + total], data[offset + total..offset + total + got];
    assert a + b == data[offset..offset + (total + got)];
    OverwriteTwice(was, at, a, b);
    assert total == 0 ==> Overwrite(was, at, a) == was;
    assert total + got == 0 ==> Overwrite(was, at, a + b) == was;
  }
}
