/** BufferCache of kernel/buffer_cache.h over a disk of 512-byte sectors. */
module BufferCaches {
  import opened Bytes
  import opened BlockLists

  const SIZE := 997
  const SECTOR := 512

  function Sector(disk: seq<int>, n: nat): seq<int> {
    Slice(disk, SECTOR * n, SECTOR)
  }

  /** memcpy. */
  method CopyInto(buffer: array<int>, at: nat, bytes: seq<int>)
    requires at + |bytes| <= buffer.Length
    modifies buffer
    ensures buffer[..] == Overwrite(old(buffer[..]), at, bytes)
  {
    forall i | at <= i < at + |bytes| {
      buffer[i] := bytes[i - at];
    }
  }

  method MakeLists() returns (lists: seq<BlockList>)
    ensures |lists| == SIZE && fresh(lists)
    ensures forall i :: 0 <= i < SIZE ==> lists[i].Valid() && lists[i].contents == [] && lists[i].members == {}
    ensures forall i, j :: 0 <= i < j < SIZE ==> lists[i] != lists[j]
  {
    lists := [];
    while |lists| < SIZE
      invariant |lists| <= SIZE && fresh(lists)
      invariant forall i :: 0 <= i < |lists| ==> lists[i].Valid() && lists[i].contents == [] && lists[i].members == {}
      invariant forall i, j :: 0 <= i < j < |lists| ==> lists[i] != lists[j]
    {
      var l := new BlockList();
      lists := lists + [l];
    }
  }

  class BufferCache {
    const disk: seq<int>
    const indices: seq<BlockList>
    var count: nat
    ghost var nodes: set<Block>

    /** Bucket i is a well-formed list of distinct blocks congruent to i, each equal to its sector. */
    ghost predicate BucketOk(i: nat)
      requires i < |indices|
      reads indices[i], indices[i].members
    {
      && indices[i].Valid()
      && (forall b :: b in indices[i].members ==> b.id % SIZE == i && b.buffer == Sector(disk, b.id))
      && (forall b, c :: b in indices[i].members && c in indices[i].members && b.id == c.id ==> b == c)
    }

    ghost predicate Owned()
      reads this`nodes, indices, nodes
    {
      && |indices| == SIZE
      && (forall i, j :: 0 <= i < j < SIZE ==> indices[i] != indices[j])
      && (forall i, b :: 0 <= i < SIZE && b in indices[i].members ==> b in nodes)
    }

    ghost predicate Valid()
      reads this`nodes, indices, nodes
    {
      Owned() && (forall i {:trigger BucketOk(i)} :: 0 <= i < SIZE ==> BucketOk(i))
    }

    /** A block with this id that is in no bucket. */
    ghost predicate InHand(b: Block)
      requires Owned()
      reads this`nodes, indices, nodes, b
    {
      && b in nodes && b.prev == null && b.buffer == Sector(disk, b.id)
      && (forall x :: x in indices[b.id % SIZE].members ==> x.id != b.id)
    }

    constructor (disk: seq<int>)
      ensures Valid() && fresh(indices) && nodes == {} && this.disk == disk && count == 0
    {
      this.disk := disk;
      count := 0;
      var lists := MakeLists();
      indices := lists;
      nodes := {};
    }

    /** extract from the bucket of this id. */
    method Take(id: nat) returns (b: Block?)
      requires Valid()
      modifies indices, nodes
      ensures Valid()
      ensures b != null ==> b.id == id && InHand(b)
      ensures b == null ==> forall x :: x in indices[id % SIZE].members ==> x.id != id
    {
      var index := id % SIZE;
      assert BucketOk(index);
      b := indices[index].Extract(id);
      forall i {:trigger BucketOk(i)} | 0 <= i < SIZE
        ensures BucketOk(i)
      {
        assert i != index ==> old(BucketOk(i));
      }
    }

    /** A new block read from the disk. */
    method Load(id: nat) returns (b: Block)
      requires Valid() && (forall x :: x in indices[id % SIZE].members ==> x.id != id)
      modifies this`nodes
      ensures Valid() && InHand(b) && b.id == id && nodes == old(nodes) + {b} && fresh(b)
    {
      b := new Block(id, Sector(disk, id));
      nodes := nodes + {b};
      forall i {:trigger BucketOk(i)} | 0 <= i < SIZE
        ensures BucketOk(i)
      {
        assert old(BucketOk(i));
      }
    }

    /** Drop the last block of any bucket. */
    method Evict(victim: nat, ghost hand: Block)
      requires Valid() && victim < SIZE && InHand(hand)
      modifies indices, nodes
      ensures Valid() && InHand(hand)
    {
      assert BucketOk(victim);
      HandApart(hand);
      var ok := indices[victim].Remove();
      forall i {:trigger BucketOk(i)} | 0 <= i < SIZE
        ensures BucketOk(i)
      {
        assert i != victim ==> old(BucketOk(i));
      }
    }

    lemma HandApart(b: Block)
      requires Valid() && InHand(b)
      ensures forall i {:trigger indices[i]} :: 0 <= i < SIZE ==> b !in indices[i].members
    {
      forall i {:trigger indices[i]} | 0 <= i < SIZE
        ensures b !in indices[i].members
      {
        assert BucketOk(i);
      }
    }

    /** add to the bucket of its id. */
    method Put(b: Block)
      requires Valid() && InHand(b)
      modifies indices, nodes
      ensures Valid()
    {
      var index := b.id % SIZE;
      assert BucketOk(index);
      HandApart(b);
      indices[index].Add(b);
      forall i {:trigger BucketOk(i)} | 0 <= i < SIZE
        ensures BucketOk(i)
      {
        assert i != index ==> old(BucketOk(i));
      }
    }

    /** The block with this id, out of its bucket: found there, or read from the disk after an eviction when the count of
        misses says the cache is full.  Which bucket loses a block is left open: any may. */
    method Fetch(n: nat) returns (b: Block)
      requires Valid()
      modifies this, indices, nodes
      ensures Valid() && InHand(b) && b.id == n && fresh(nodes - old(nodes))
    {
      var found := Take(n);
      if found != null { return found; }
      b := Load(n);
      count := count + 1;
      if count >= SIZE {
        var victim: nat := *;
        Evict(victim % SIZE, b);
        count := SIZE;
      }
    }

    /** read_block: whatever the cache holds, the buffer gets the sector of the disk. */
    method ReadBlock(n: nat, buffer: array<int>, at: nat)
      requires Valid() && SECTOR * (n + 1) <= |disk| && at + SECTOR <= buffer.Length
      modifies this, indices, nodes, buffer
      ensures Valid() && fresh(nodes - old(nodes))
      ensures buffer[..] == Overwrite(old(buffer[..]), at, disk[SECTOR * n..SECTOR * (n + 1)])
    {
      var b := Fetch(n);
      SectorIs(n);
      CopyInto(buffer, at, b.buffer);
      Put(b);
    }

    lemma SectorIs(n: nat)
      requires SECTOR * (n + 1) <= |disk|
      ensures Sector(disk, n) == disk[SECTOR * n..SECTOR * (n + 1)]
    {
    }
  }
}
