/** What vmm_pageFault puts in a new page.  All the address arithmetic is 32-bit. */
module PageFill {
  import opened Basics
  import opened VmeModel
  import VP = VmeProofs
  import opened Bytes

  function Sub32(a: nat, b: nat): (r: nat)
    ensures r < U32
    ensures b <= a < U32 ==> r == a - b
  {
    (a - b) % U32
  }

  function PageStart(va: nat): nat {
    va - va % PAGE
  }

  function PageOffset(e: Entry, va: nat): nat {
    Sub32(PageStart(va), e.start)
  }

  /** The number of bytes the handler asks the file for. */
  function Chunk(e: Entry, va: nat): nat {
    var size := Sub32(e.size, PageOffset(e, va));
    if size > PAGE then PAGE else size
  }

  function Blank(): (r: seq<int>)
    ensures |r| == PAGE && forall j :: 0 <= j < PAGE ==> r[j] == 0
  {
    seq(PAGE, j => 0)
  }

  /** The page after the handler: read_all into a zeroed frame. */
  function Filled(file: seq<int>, e: Entry, va: nat): (r: seq<int>)
    ensures |r| == PAGE
  {
    Overwrite(Blank(), 0, Slice(file, Wrap(e.offset + PageOffset(e, va)), Chunk(e, va)))
  }

  /** Byte j of the page as mmap promises it: the file from the entry's offset, clipped to entry and file. */
  function Promised(file: seq<int>, e: Entry, va: nat, j: nat): int {
    var at := PageStart(va) - e.start + j;
    if 0 <= at < e.size && 0 <= e.offset + at < |file| then file[e.offset + at] else 0
  }

  /** An entry whose pages hold its size, at an address that does not wrap. */
  predicate Sound(e: Entry) {
    && e.start % PAGE == 0 && e.start + PAGE * e.pages < U32 && e.size < U32
    && PAGE * (e.pages - 1) < e.size <= PAGE * e.pages
  }

  /** Every entry of a range allocator that covers an address is sound. */
  lemma EntryIsSound(v: Vme, k: nat, va: nat)
    requires Inv(v) && k < |v.entries| && Covers(v.entries[k], va)
    ensures Sound(v.entries[k])
  {
    VP.CoversExact(v, k, va);
    VP.EntryPagesAt(v.entries, k);
    if v.entries[k].pages == 0 { VP.EmptyCovers(v.entries[k], va); }
  }

  /** The length never underflows: it is between 1 and 4096, and stays inside the entry. */
  lemma ChunkInRange(e: Entry, va: nat)
    requires Sound(e) && Covers(e, va)
    ensures PageOffset(e, va) == PageStart(va) - e.start
    ensures 1 <= Chunk(e, va) <= PAGE
    ensures Chunk(e, va) == if e.size - PageOffset(e, va) > PAGE then PAGE else e.size - PageOffset(e, va)
  {
    var p := va / PAGE;
    assert PageStart(va) == PAGE * p;
    assert e.start == PAGE * (e.start / PAGE);
    assert p <= e.start / PAGE + e.pages - 1;
  }

  /** Without wrap of the file position the page is exactly what was promised. */
  lemma FilledIsPromised(file: seq<int>, e: Entry, va: nat, j: nat)
    requires Sound(e) && Covers(e, va) && j < PAGE && e.offset + PageOffset(e, va) < U32
    ensures Filled(file, e, va)[j] == Promised(file, e, va, j)
  {
    ChunkInRange(e, va);
  }

  /** The handler gives the promised page for every file exactly when file_offset + page_offset does not wrap. */
  lemma FaultIsRightIff(e: Entry, va: nat)
    requires Sound(e) && Covers(e, va) && e.offset < U32
    ensures e.offset + PageOffset(e, va) < U32 <==> RightForAll(e, va)
  {
    ChunkInRange(e, va);
    if e.offset + PageOffset(e, va) < U32 {
      forall file, j: nat {:trigger Promised(file, e, va, j)} | j < PAGE && |file| < U32
        ensures Filled(file, e, va)[j] == Promised(file, e, va, j)
      {
        FilledIsPromised(file, e, va, j);
      }
    } else {
      WrongWhenWrapped(e, va);
    }
  }

  ghost predicate RightForAll(e: Entry, va: nat) {
    forall file: seq<int>, j: nat {:trigger Promised(file, e, va, j)} ::
      j < PAGE && |file| < U32 ==> Filled(file, e, va)[j] == Promised(file, e, va, j)
  }

  /** Past the wrap the handler reads the start of the file instead of nothing. */
  lemma WrongWhenWrapped(e: Entry, va: nat)
    requires Sound(e) && Covers(e, va) && e.offset < U32 && e.offset + PageOffset(e, va) >= U32
    ensures !RightForAll(e, va)
  {
    ChunkInRange(e, va);
    var at := Wrap(e.offset + PageOffset(e, va));
    assert at == e.offset + PageOffset(e, va) - U32;
    var file := seq(at + 1, i => 1);
    assert Filled(file, e, va)[0] == 1;
    assert Promised(file, e, va, 0) == 0;
  }

  /** What a process reads from the page after the fault. */
  lemma FaultLoads(file: seq<int>, e: Entry, va: nat, j: nat)
    requires Sound(e) && Covers(e, va) && j < PAGE && e.offset + PageOffset(e, va) < U32 && AreBytes(file)
    ensures Load(Words(Filled(file, e, va)), j) == Promised(file, e, va, j)
  {
    FilledIsPromised(file, e, va, j);
    LoadWords(Filled(file, e, va), j);
  }
}
