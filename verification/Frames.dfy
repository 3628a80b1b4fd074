/** The frame allocator of kernel/physmem.cc: a bump pointer and a free list whose links live in the first
    word of the free frames themselves. */
module Frames {
  import opened Basics

  const WORDS := 1024

  /** Physical memory by frame number.  `first`, `avail` and `limit` are byte addresses; 0 is the null pointer. */
  datatype Phys = Phys(mem: map<int, seq<int>>, first: int, avail: int, limit: int)

  datatype Maybe<T> = Panic | Done(value: T)

  function Zero(): (r: seq<int>)
    ensures |r| == WORDS && forall i :: 0 <= i < WORDS ==> r[i] == 0
  {
    seq(WORDS, i => 0)
  }

  // ---------- what the allocator keeps ----------

  function AddrAt(free: seq<int>, i: int): int {
    if 0 <= i < |free| then PAGE * free[i] else 0
  }

  ghost predicate LinkAt(p: Phys, free: seq<int>, i: int)
    requires 0 <= i < |free|
  {
    free[i] in p.mem && |p.mem[free[i]]| == WORDS && p.mem[free[i]][0] == AddrAt(free, i + 1)
  }

  /** Frames lo.. below limit exist; the list from `first` is exactly `free`, distinct frames below avail. */
  ghost predicate Inv(p: Phys, lo: int, free: seq<int>) {
    && 0 < lo && lo * PAGE <= p.avail <= p.limit && p.avail % PAGE == 0 && p.limit % PAGE == 0
    && (forall f :: lo <= f < p.limit / PAGE ==> f in p.mem)
    && (forall f :: f in p.mem ==> |p.mem[f]| == WORDS)
    && p.first == AddrAt(free, 0)
    && (forall i {:trigger LinkAt(p, free, i)} :: 0 <= i < |free| ==> LinkAt(p, free, i))
    && (forall i :: 0 <= i < |free| ==> lo <= free[i] < p.avail / PAGE)
    && Distinct(free)
  }

  /** Frame f has been handed out and not returned. */
  predicate Taken(p: Phys, lo: int, free: seq<int>, f: int) {
    lo <= f < p.avail / PAGE && f !in free
  }

  // ---------- alloc_frame ----------

  predicate CanAlloc(p: Phys) {
    p.first == 0 || (p.first / PAGE in p.mem && |p.mem[p.first / PAGE]| == WORDS)
  }

  /** alloc_frame: the new memory and the frame, or the panic when nothing is left. */
  function Alloc(p: Phys): Maybe<(Phys, int)>
    requires CanAlloc(p)
  {
    if p.first != 0 then
      var f := p.first / PAGE;
      Done((p.(first := p.mem[f][0], mem := p.mem[f := Zero()]), f))
    else if p.avail == p.limit then
      Panic
    else
      Done((p.(avail := p.avail + PAGE, mem := p.mem[p.avail / PAGE := Zero()]), p.avail / PAGE))
  }

  function NextFree(free: seq<int>): seq<int> {
    if free == [] then [] else free[1..]
  }

  /** alloc_frame panics only when every frame is in use; otherwise it hands out a zeroed frame that was not. */
  lemma AllocResult(p: Phys, lo: int, free: seq<int>)
    requires Inv(p, lo, free)
    ensures CanAlloc(p)
    ensures Alloc(p).Panic? <==> free == [] && p.avail == p.limit
    ensures Alloc(p).Done? ==>
              var (p', f) := Alloc(p).value;
              && Inv(p', lo, NextFree(free))
              && p'.mem == p.mem[f := Zero()] && p'.limit == p.limit
              && lo <= f < p.limit / PAGE && !Taken(p, lo, free, f)
              && (forall g :: Taken(p', lo, NextFree(free), g) <==> Taken(p, lo, free, g) || g == f)
  {
    if free == [] {
      if p.avail != p.limit { AllocBump(p, lo); }
    } else {
      AllocPop(p, lo, free);
    }
  }

  lemma AllocPop(p: Phys, lo: int, free: seq<int>)
    requires Inv(p, lo, free) && free != []
    ensures CanAlloc(p) && Alloc(p).Done? && p.first / PAGE == free[0]
    ensures var (p', f) := Alloc(p).value;
            && f == free[0] && Inv(p', lo, free[1..])
            && (forall g :: Taken(p', lo, free[1..], g) <==> Taken(p, lo, free, g) || g == f)
  {
    assert LinkAt(p, free, 0);
    var (p', f) := Alloc(p).value;
    var rest := free[1..];
    forall i {:trigger LinkAt(p', rest, i)} | 0 <= i < |rest|
      ensures LinkAt(p', rest, i)
    {
      assert LinkAt(p, free, i + 1);
    }
    assert p'.first == AddrAt(rest, 0);
    forall g
      ensures g in free <==> g in rest || g == f
    {
      assert free == [f] + rest;
    }
    assert f !in rest;
  }

  lemma AllocBump(p: Phys, lo: int)
    requires Inv(p, lo, []) && p.avail < p.limit
    ensures CanAlloc(p) && Alloc(p).Done?
    ensures var (p', f) := Alloc(p).value;
            && f == p.avail / PAGE && Inv(p', lo, [])
            && (forall g :: Taken(p', lo, [], g) <==> Taken(p, lo, [], g) || g == f)
  {
  }

  // ---------- dealloc_frame ----------

  function Dealloc(p: Phys, f: int): Phys
    requires f in p.mem && |p.mem[f]| == WORDS
  {
    p.(mem := p.mem[f := p.mem[f][0 := p.first]], first := PAGE * f)
  }

  /** dealloc_frame puts the frame on the list once and touches no other frame. */
  lemma DeallocResult(p: Phys, lo: int, free: seq<int>, f: int)
    requires Inv(p, lo, free) && Taken(p, lo, free, f)
    ensures f in p.mem && |p.mem[f]| == WORDS
    ensures Inv(Dealloc(p, f), lo, [f] + free)
    ensures forall g :: Taken(Dealloc(p, f), lo, [f] + free, g) <==> Taken(p, lo, free, g) && g != f
  {
    var p', free' := Dealloc(p, f), [f] + free;
    forall i {:trigger LinkAt(p', free', i)} | 0 <= i < |free'|
      ensures LinkAt(p', free', i)
    {
      if i > 0 { assert LinkAt(p, free, i - 1); }
    }
  }

  // ---------- writes to frames in use ----------

  /** A write to a frame that is not on the list leaves the allocator alone. */
  lemma WriteKeepsInv(p: Phys, lo: int, free: seq<int>, f: int, w: seq<int>)
    requires Inv(p, lo, free) && f !in free && |w| == WORDS && f in p.mem
    ensures Inv(p.(mem := p.mem[f := w]), lo, free)
  {
    var p' := p.(mem := p.mem[f := w]);
    forall i {:trigger LinkAt(p', free, i)} | 0 <= i < |free|
      ensures LinkAt(p', free, i)
    {
      assert LinkAt(p, free, i);
    }
  }
}
