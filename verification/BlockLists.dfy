/** One bucket of the buffer cache: BlockList of kernel/buffer_cache.h, a doubly linked list changed in place. */
module BlockLists {
  import opened Basics

  class Block {
    const id: nat
    const buffer: seq<int>
    var next: Block?
    var prev: Block?

    constructor (id: nat, buffer: seq<int>)
      ensures this.id == id && this.buffer == buffer && next == null && prev == null
    {
      this.id := id;
      this.buffer := buffer;
      next, prev := null, null;
    }
  }

  /** Neighbours point at each other, the ends at nothing. */
  ghost predicate Linked(s: seq<Block>)
    reads s
  {
    && (forall i {:trigger s[i].next} :: 0 <= i < |s| ==> s[i].next == if i + 1 < |s| then s[i + 1] else null)
    && (forall i {:trigger s[i].prev} :: 0 <= i < |s| ==> s[i].prev == if i > 0 then s[i - 1] else null)
  }

  function Without(s: seq<Block>, k: nat): seq<Block>
    requires k < |s|
  {
    s[..k] + s[k + 1..]
  }

  lemma WithoutDistinct(s: seq<Block>, k: nat)
    requires Distinct(s) && k < |s|
    ensures Distinct(Without(s, k)) && s[k] !in Without(s, k)
    ensures forall b :: b in Without(s, k) <==> b in s && b != s[k]
  {
    var r := Without(s, k);
    assert forall i :: 0 <= i < |r| ==> r[i] == if i < k then s[i] else s[i + 1];
    forall b | b in s && b != s[k]
      ensures b in r
    {
      var i :| 0 <= i < |s| && s[i] == b;
      assert i < k ==> r[i] == b;
      assert i > k ==> r[i - 1] == b;
    }
  }

  /** The list with s[k] taken out is linked once the neighbours of s[k] point at each other. */
  lemma WithoutLinked(s: seq<Block>, k: nat)
    requires k < |s|
    requires forall i {:trigger s[i].next} :: 0 <= i < |s| && i != k && i != k - 1 ==> s[i].next == if i + 1 < |s| then s[i + 1] else null
    requires forall i {:trigger s[i].prev} :: 0 <= i < |s| && i != k && i != k + 1 ==> s[i].prev == if i > 0 then s[i - 1] else null
    requires k > 0 ==> s[k - 1].next == if k + 1 < |s| then s[k + 1] else null
    requires k + 1 < |s| ==> s[k + 1].prev == if k > 0 then s[k - 1] else null
    ensures Linked(Without(s, k))
  {
    var r := Without(s, k);
    assert forall i :: 0 <= i < |r| ==> r[i] == if i < k then s[i] else s[i + 1];
  }

  class BlockList {
    var first: Block?
    var last: Block?
    ghost var contents: seq<Block>
    ghost var members: set<Block>

    ghost predicate Valid()
      reads this, members
    {
      && members == (set b | b in contents) && Distinct(contents) && Linked(contents)
      && first == (if contents == [] then null else contents[0])
      && last == (if contents == [] then null else contents[|contents| - 1])
    }

    constructor ()
      ensures Valid() && contents == []
    {
      first, last, contents, members := null, null, [], {};
    }

    /** Drop the last block. */
    method Remove() returns (ok: bool)
      requires Valid()
      modifies this, members
      ensures Valid() && ok == (old(contents) != [])
      ensures contents == if ok then old(contents)[..|old(contents)| - 1] else []
      ensures members <= old(members)
    {
      if last == null { return false; }
      ghost var s := contents;
      assert last == s[|s| - 1];
      var lastPrev := last.prev;
      last := lastPrev;
      if last == null {
        first := null;
      } else {
        last.next := null;
      }
      contents := s[..|s| - 1];
      members := set b | b in contents;
      return true;
    }

    /** The loop of extract: the first block with this id and the one before it. */
    method Find(id: nat) returns (prev: Block?, curr: Block?, ghost k: nat)
      requires Valid()
      ensures k <= |contents| && curr == (if k < |contents| then contents[k] else null)
      ensures prev == (if k > 0 then contents[k - 1] else null)
      ensures curr != null ==> curr.id == id
      ensures curr == null ==> forall b :: b in contents ==> b.id != id
    {
      prev, curr, k := null, first, 0;
      while curr != null && curr.id != id
        invariant k <= |contents| && curr == (if k < |contents| then contents[k] else null)
        invariant prev == (if k > 0 then contents[k - 1] else null)
        invariant forall i :: 0 <= i < k ==> contents[i].id != id
        decreases |contents| - k
      {
        prev := curr;
        curr := curr.next;
        k := k + 1;
      }
    }

    /** Take the block with this id out of the list, null when there is none. */
    method Extract(id: nat) returns (b: Block?)
      requires Valid()
      modifies this, members
      ensures Valid()
      ensures b == null ==> contents == old(contents) && members == old(members) && forall x :: x in members ==> x.id != id
      ensures b != null ==> b.id == id && b.next == null && b.prev == null && b in old(members) && b !in members
      ensures b != null ==> members == old(members) - {b}
    {
      var prev, curr, k := Find(id);
      if curr == null { return null; }
      WithoutDistinct(contents, k);
      Unlink(prev, curr, k);
      members := members - {curr};
      return curr;
    }

    method Unlink(prev: Block?, curr: Block, ghost k: nat)
      requires Valid() && k < |contents| && curr == contents[k] && prev == (if k > 0 then contents[k - 1] else null)
      modifies this, members
      ensures contents == Without(old(contents), k) && members == old(members) && Linked(contents) && curr.next == null && curr.prev == null
      ensures first == (if contents == [] then null else contents[0])
      ensures last == (if contents == [] then null else contents[|contents| - 1])
    {
      ghost var s := contents;
      if first == curr { first := curr.next; }
      if last == curr { last := null; }
      if prev != null { prev.next := curr.next; }
      if curr.next != null {
        curr.next.prev := prev;
      } else {
        last := prev;
      }
      curr.next := null;
      curr.prev := null;
      WithoutLinked(s, k);
      contents := Without(s, k);
    }

    /** Put a block that is in no list at the front. */
    method Add(b: Block)
      requires Valid() && b !in members && b.prev == null
      modifies this, b, members
      ensures Valid() && contents == [b] + old(contents) && members == old(members) + {b}
    {
      ghost var s := contents;
      b.next := first;
      if first == null {
        last := b;
      } else {
        first.prev := b;
      }
      first := b;
      contents, members := [b] + s, members + {b};
      assert forall i :: 0 < i < |contents| ==> contents[i] == s[i - 1];
    }
  }
}
