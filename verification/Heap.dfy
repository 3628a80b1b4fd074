/** The heap itself: one array of words changed in place, as kernel/heap.cc and the user-space heap do. */
module Heap {
  import opened Basics
  import opened Bytes
  import opened HeapModel
  import opened HeapSteps

  /** What malloc hands out: null, or the address of a word of the array.  malloc(0) is the array itself. */
  datatype Ptr = Null | Word(index: int)

  /** The block size malloc asks for; `bytes + 3` is 32-bit arithmetic. */
  function Ints(bytes: nat): (r: nat)
    ensures 4 <= r
  {
    var w := (bytes + 3) % U32 / 4 + 2;
    if w < 4 then 4 else w
  }

  /** A block of Ints(bytes) words has room for `bytes` payload bytes exactly when the rounding does not wrap. */
  lemma RequestFitsIff(bytes: nat)
    requires 0 < bytes < U32
    ensures 4 * (Ints(bytes) - 2) >= bytes <==> bytes < U32 - 3
  {
  }

  /** Otherwise it is the smallest block of at least four words that has room: two words for the tags, the rest payload. */
  lemma RequestIsSmallest(bytes: nat, n: nat)
    requires 0 < bytes < U32 - 3
    ensures bytes <= 4 * (Ints(bytes) - 2)
    ensures 4 <= n && bytes <= 4 * (n - 2) ==> Ints(bytes) <= n
  {
  }

  // ---------- the search ----------

  /** The number of blocks among the first k of l that are large enough. */
  ghost function RoomyBefore(m: seq<int>, l: seq<int>, k: nat, ints: nat): nat
    requires k <= |l|
  {
    if k == 0 then 0 else (if Size(m, l[0]) >= ints then 1 else 0) + RoomyBefore(m, l[1..], k - 1, ints)
  }

  /** Block k of the list is large enough and one of the first n that are. */
  ghost predicate Candidate(m: seq<int>, l: seq<int>, ints: nat, n: nat, k: nat) {
    k < |l| && Size(m, l[k]) >= ints && RoomyBefore(m, l, k, ints) < n
  }

  /** h is a candidate, no candidate is smaller, and none before it is as small. */
  ghost predicate BestFit(m: seq<int>, l: seq<int>, ints: nat, n: nat, h: int) {
    exists g: nat {:trigger Candidate(m, l, ints, n, g)} :: Candidate(m, l, ints, n, g) && l[g] == h && BestAt(m, l, ints, n, g)
  }

  ghost predicate BestAt(m: seq<int>, l: seq<int>, ints: nat, n: nat, g: nat)
    requires g < |l|
  {
    forall k: nat {:trigger Candidate(m, l, ints, n, k)} :: Candidate(m, l, ints, n, k) ==>
      Size(m, l[g]) <= Size(m, l[k]) && (k < g ==> Size(m, l[g]) < Size(m, l[k]))
  }

  /** h is the first block of the list that is large enough. */
  ghost predicate FirstFit(m: seq<int>, l: seq<int>, ints: nat, h: int) {
    exists g :: 0 <= g < |l| && l[g] == h && Size(m, h) >= ints && forall k :: 0 <= k < g ==> Size(m, l[k]) < ints
  }

  /** The first n blocks of l that are large enough. */
  function Fitting(m: seq<int>, l: seq<int>, ints: nat, n: nat): seq<int> {
    if l == [] || n == 0 then []
    else if Size(m, l[0]) >= ints then [l[0]] + Fitting(m, l[1..], ints, n - 1)
    else Fitting(m, l[1..], ints, n)
  }

  /** h is the earliest of the smallest blocks of c. */
  ghost predicate Smallest(m: seq<int>, c: seq<int>, h: int) {
    exists i :: 0 <= i < |c| && c[i] == h && SmallestAt(m, c, i)
  }

  ghost predicate SmallestAt(m: seq<int>, c: seq<int>, i: int)
    requires 0 <= i < |c|
  {
    && (forall j :: 0 <= j < |c| ==> Size(m, c[i]) <= Size(m, c[j]))
    && (forall j :: 0 <= j < i ==> Size(m, c[i]) < Size(m, c[j]))
  }

  lemma {:induction false} FittingFits(m: seq<int>, l: seq<int>, ints: nat, n: nat, x: int)
    requires x in Fitting(m, l, ints, n)
    ensures x in l && Size(m, x) >= ints
  {
    if Size(m, l[0]) >= ints {
      if x != l[0] { FittingFits(m, l[1..], ints, n - 1, x); }
    } else {
      FittingFits(m, l[1..], ints, n, x);
    }
  }

  lemma {:induction false} FittingFinds(m: seq<int>, l: seq<int>, ints: nat, n: nat, x: int)
    requires x in l && Size(m, x) >= ints && 0 < n
    ensures Fitting(m, l, ints, n) != []
  {
    if Size(m, l[0]) < ints { FittingFinds(m, l[1..], ints, n, x); }
  }

  /** One step of the search over the candidates seen so far. */
  lemma SmallestStep(m: seq<int>, c: seq<int>, it: int, x: int)
    requires c != [] ==> Smallest(m, c, it)
    ensures Smallest(m, c + [x], if c == [] || Size(m, x) < Size(m, it) then x else it)
  {
    var d := c + [x];
    if c == [] || Size(m, x) < Size(m, it) {
      if c != [] {
        var i :| 0 <= i < |c| && c[i] == it && SmallestAt(m, c, i);
      }
      assert SmallestAt(m, d, |c|);
    } else {
      var i :| 0 <= i < |c| && c[i] == it && SmallestAt(m, c, i);
      assert d[i] == it && SmallestAt(m, d, i);
    }
  }

  /** Candidate k of the list stands in the sequence of candidates behind those before it. */
  lemma {:induction false} CandidateAt(m: seq<int>, l: seq<int>, ints: nat, n: nat, k: nat)
    requires Candidate(m, l, ints, n, k)
    ensures RoomyBefore(m, l, k, ints) < |Fitting(m, l, ints, n)| && Fitting(m, l, ints, n)[RoomyBefore(m, l, k, ints)] == l[k]
  {
    if k > 0 {
      assert l[1..][k - 1] == l[k];
      if Size(m, l[0]) >= ints {
        CandidateAt(m, l[1..], ints, n - 1, k - 1);
      } else {
        CandidateAt(m, l[1..], ints, n, k - 1);
      }
    }
  }

  lemma {:induction false} CandidateOf(m: seq<int>, l: seq<int>, ints: nat, n: nat, i: nat) returns (k: nat)
    requires i < |Fitting(m, l, ints, n)|
    ensures Candidate(m, l, ints, n, k) && RoomyBefore(m, l, k, ints) == i && Fitting(m, l, ints, n)[i] == l[k]
  {
    if Size(m, l[0]) >= ints {
      if i == 0 {
        k := 0;
      } else {
        k := CandidateOf(m, l[1..], ints, n - 1, i - 1);
        assert l[1..][k] == l[k + 1];
        k := k + 1;
      }
    } else {
      k := CandidateOf(m, l[1..], ints, n, i);
      assert l[1..][k] == l[k + 1];
      k := k + 1;
    }
  }

  lemma {:induction false} RoomyGrows(m: seq<int>, l: seq<int>, k: nat, g: nat, ints: nat)
    requires k < g <= |l| && Size(m, l[k]) >= ints
    ensures RoomyBefore(m, l, k, ints) < RoomyBefore(m, l, g, ints)
  {
    if k > 0 {
      assert l[1..][k - 1] == l[k];
      RoomyGrows(m, l[1..], k - 1, g - 1, ints);
    }
  }

  /** The earliest of the smallest candidates is the best fit. */
  lemma SmallestIsBest(m: seq<int>, l: seq<int>, ints: nat, n: nat, h: int)
    requires Smallest(m, Fitting(m, l, ints, n), h)
    ensures BestFit(m, l, ints, n, h)
  {
    var c := Fitting(m, l, ints, n);
    var i :| 0 <= i < |c| && c[i] == h && SmallestAt(m, c, i);
    var g := CandidateOf(m, l, ints, n, i);
    forall k: nat {:trigger Candidate(m, l, ints, n, k)} | Candidate(m, l, ints, n, k)
      ensures Size(m, l[g]) <= Size(m, l[k]) && (k < g ==> Size(m, l[g]) < Size(m, l[k]))
    {
      CandidateAt(m, l, ints, n, k);
      if k < g { RoomyGrows(m, l, k, g, ints); }
    }
    assert BestAt(m, l, ints, n, g);
  }

  /** With a single candidate it is the first block that fits. */
  lemma SingleIsFirst(m: seq<int>, l: seq<int>, ints: nat, h: int)
    requires Fitting(m, l, ints, 1) == [h]
    ensures FirstFit(m, l, ints, h)
  {
    var g := CandidateOf(m, l, ints, 1, 0);
    forall k | 0 <= k < g
      ensures Size(m, l[k]) < ints
    {
      if Size(m, l[k]) >= ints { RoomyGrows(m, l, k, g, ints); }
    }
  }

  // ---------- bytes of a word, little-endian two's complement ----------

  /** The low k bytes of src under the other bytes of dst. */
  function Merge(dst: int, src: int, k: nat): int
    decreases k
  {
    if k == 0 then dst else src % 0x100 + 0x100 * Merge(dst / 0x100, src / 0x100, k - 1)
  }

  /** The low k bytes come from src, the others stay. */
  lemma {:induction false} MergeBytes(dst: int, src: int, k: nat, j: nat)
    ensures ByteOf(Merge(dst, src, k), j) == if j < k then ByteOf(src, j) else ByteOf(dst, j)
    decreases k
  {
    if k > 0 {
      LowByte(src % 0x100, Merge(dst / 0x100, src / 0x100, k - 1));
      if j > 0 { MergeBytes(dst / 0x100, src / 0x100, k - 1, j - 1); }
    }
  }

  /** Byte i of the region of words that starts at index p. */
  function ByteAt(m: seq<int>, p: int, i: nat): int
    requires 0 <= p && p + i / 4 < |m|
  {
    ByteOf(m[p + i / 4], i % 4)
  }

  // ---------- the heap ----------

  class Heap {
    const words: array<int>
    var avail: int
    ghost var heads: set<int>
    ghost var list: seq<int>

    ghost predicate Valid()
      reads this, words
    {
      words.Length < 0x4000_0000 && Inv(words[..], avail, heads, list)
    }

    method MakeTaken(i: int, ints: int)
      requires 0 <= i && 0 < ints && i + ints <= words.Length
      modifies words
      ensures words[..] == Tag(old(words[..]), i, -ints)
    {
      words[i] := -ints;
      words[i + ints - 1] := -ints;
    }

    method MakeAvail(i: int, ints: int)
      requires 0 <= i && 4 <= ints && i + ints <= words.Length && 0 <= avail && avail + 2 < words.Length
      modifies words, this`avail
      ensures words[..] == Push(Tag(old(words[..]), i, ints), old(avail), i)
      ensures avail == i
    {
      words[i] := ints;
      words[i + ints - 1] := ints;
      words[i + 1] := avail;
      words[i + 2] := 0;
      if avail != 0 {
        words[avail + 2] := i;
      }
      avail := i;
    }

    method Remove(i: int)
      requires CanUnlink(words[..], i)
      modifies words, this`avail
      ensures words[..] == Unlink(old(words[..]), i)
      ensures avail == UnlinkAvail(old(words[..]), old(avail), i)
    {
      var prevIndex := words[i + 2];
      var nextIndex := words[i + 1];
      if prevIndex == 0 {
        avail := nextIndex;
      } else {
        words[prevIndex + 1] := nextIndex;
      }
      if nextIndex != 0 {
        words[nextIndex + 2] := prevIndex;
      }
    }

    /** heapInit: two sentinels and one available block between them. */
    constructor (bytes: nat)
      requires 32 <= bytes < U32
      ensures Valid() && fresh(words) && words.Length == bytes / 4
      ensures heads == {0, 2, words.Length - 2} && list == [2] && words[2] == words.Length - 4
    {
      var len := bytes / 4;
      words := new int[len];
      avail := 0;
      heads := {0, 2, len - 2};
      list := [2];
      new;
      MakeTaken(0, 2);
      MakeAvail(2, len - 4);
      MakeTaken(len - 2, 2);
      InitInv(words[..], len);
    }

    /** malloc's search: the smallest of the first twenty blocks that fit, 0 if none does. */
    method Search(ints: nat) returns (it: int, mx: int)
      requires Valid() && 4 <= ints
      ensures it == 0 <==> Fitting(words[..], list, ints, 20) == []
      ensures it != 0 ==> Smallest(words[..], Fitting(words[..], list, ints, 20), it) && mx == Size(words[..], it)
      ensures it != 0 ==> BestFit(words[..], list, ints, 20, it)
    {
      hide Inv, Smallest, BestFit;
      mx := 0x7FFF_FFFF;
      it := 0;
      var countDown := 20;
      var p := avail;
      ghost var m := words[..];
      ghost var j := 0;
      ghost var done: seq<int> := [];
      ListStart(m, avail, heads, list);
      while p != 0
        invariant 0 <= j <= |list| && p == At(list, j) && (j < |list| ==> p != 0) && 0 < countDown && |done| + countDown == 20
        invariant Fitting(m, list, ints, 20) == done + Fitting(m, list[j..], ints, countDown)
        invariant done == [] ==> it == 0 && mx == 0x7FFF_FFFF
        invariant done != [] ==> it != 0 && Smallest(m, done, it) && mx == Size(m, it)
        decreases |list| - j
      {
        Visit(m, avail, heads, list, j);
        var sz := Len(words[p]);
        assert list[j..][1..] == list[j + 1..];
        if sz >= ints {
          SmallestStep(m, done, it, p);
          if sz < mx {
            mx := sz;
            it := p;
          }
          done := done + [p];
          countDown := countDown - 1;
          if countDown == 0 {
            assert Fitting(m, list, ints, 20) == done;
            break;
          }
        }
        p := words[p + 1];
        j := j + 1;
      }
      assert countDown > 0 ==> done + [] == done;
      assert Fitting(m, list, ints, 20) == done;
      if it != 0 { SmallestIsBest(m, list, ints, 20, it); }
    }

    // The part of malloc after the search: take `ints` words from list[k].
    method TakeFrom(ghost k: nat, it: int, ints: int)
      requires Valid() && k < |list| && it == list[k] && 4 <= ints <= Size(words[..], it)
      modifies this, words
      ensures Valid()
      ensures TakeOk(old(words[..]), old(avail), it, ints)
      ensures words[..] == Take(old(words[..]), old(avail), it, ints)
      ensures heads == TakeHeads(old(words[..]), old(heads), it, ints) && old(heads) <= heads
      ensures KeepsTaken(old(words[..]), words[..], old(heads), it)
      ensures it in old(heads) && 0 < it < words.Length && old(words[..])[it] > 0
      ensures Live(words[..], heads, it) && ints <= Size(words[..], it) < ints + 4
    {
      hide Inv, KeepsTaken, Unlink, UnlinkAvail, CanUnlink, Push;
      ghost var m, a := words[..], avail;
      TakeInv(m, avail, heads, list, k, ints);
      var mx := Len(words[it]);
      Remove(it);
      var extra := mx - ints;
      if extra >= 4 {
        MakeTaken(it, ints);
        MakeAvail(it + ints, extra);
      } else {
        MakeTaken(it, mx);
      }
      heads, list := TakeHeads(m, heads, it, ints), TakeList(m, list, k, ints);
    }

    ghost predicate Unchanged(m: seq<int>, a: int, h: set<int>, l: seq<int>)
      reads this, words
    {
      words[..] == m && avail == a && heads == h && list == l
    }

    /** The kernel's malloc. */
    method Malloc(bytes: nat) returns (p: Ptr)
      requires Valid() && bytes < U32
      modifies this, words
      ensures Valid()
      ensures bytes == 0 ==> p == Word(0) && Unchanged(old(words[..]), old(avail), old(heads), old(list))
      ensures bytes > 0 ==> (p == Null <==> NoneFits(old(words[..]), old(heads), Ints(bytes)))
      ensures p == Null ==> Unchanged(old(words[..]), old(avail), old(heads), old(list))
      ensures bytes > 0 && p != Null ==>
                && BestFit(old(words[..]), old(list), Ints(bytes), 20, p.index - 1)
                && Granted(old(words[..]), old(heads), words[..], heads, p, Ints(bytes))
    {
      hide Inv, Smallest, BestFit, KeepsTaken, TakeOk, Take, TakeHeads;
      if bytes == 0 { return Word(0); }
      var ints := Ints(bytes);
      var it, mx := Search(ints);
      ghost var m := words[..];
      FittingAll(m, avail, heads, list, ints, 20);
      p := Null;
      if it != 0 {
        ghost var k := Chosen(m, list, ints, 20, it);
        TakeFrom(k, it, ints);
        p := Word(it + 1);
      }
    }

    /** The user-space malloc: the first block that fits. */
    method UserMalloc(bytes: nat) returns (res: Ptr)
      requires Valid() && bytes < U32
      modifies this, words
      ensures Valid()
      ensures bytes == 0 ==> res == Word(0) && Unchanged(old(words[..]), old(avail), old(heads), old(list))
      ensures bytes > 0 ==> (res == Null <==> NoneFits(old(words[..]), old(heads), Ints(bytes)))
      ensures res == Null ==> Unchanged(old(words[..]), old(avail), old(heads), old(list))
      ensures bytes > 0 && res != Null ==>
                && FirstFit(old(words[..]), old(list), Ints(bytes), res.index - 1)
                && Granted(old(words[..]), old(heads), words[..], heads, res, Ints(bytes))
                && TakeOk(old(words[..]), old(avail), res.index - 1, Ints(bytes))
                && words[..] == Take(old(words[..]), old(avail), res.index - 1, Ints(bytes))
    {
      hide Inv, KeepsTaken, TakeOk, FirstFit, Take, TakeHeads, Granted;
      if bytes == 0 { return Word(0); }
      var ints := Ints(bytes);
      ghost var m, a, h, l := words[..], avail, heads, list;
      FittingAll(m, avail, heads, list, ints, 1);
      ListStart(m, avail, heads, list);
      var p := avail;
      res := Null;
      ghost var j := 0;
      while p != 0 && res == Null
        invariant 0 <= j <= |l| && p == At(l, j) && (j < |l| ==> p != 0)
        invariant Valid()
        invariant res == Null ==> Unchanged(m, a, h, l) && Fitting(m, l, ints, 1) == Fitting(m, l[j..], ints, 1)
        invariant res != Null ==> Fitting(m, l, ints, 1) != [] && FirstFit(m, l, ints, res.index - 1) && Granted(m, h, words[..], heads, res, ints)
        invariant res != Null ==> TakeOk(m, a, res.index - 1, ints) && words[..] == Take(m, a, res.index - 1, ints)
        decreases |l| - j, res == Null
      {
        Visit(m, avail, heads, list, j);
        var sz := Len(words[p]);
        assert l[j..][1..] == l[j + 1..];
        if sz >= ints {
          SingleIsFirst(m, l, ints, p);
          TakeFrom(j, p, ints);
          res := Word(p + 1);
          IsGranted(m, h, words[..], heads, res, ints);
        } else {
          p := words[p + 1];
          j := j + 1;
        }
      }
    }

    /** free, in both heaps: false stands for the panic on a block that is not taken. */
    method Free(p: Ptr) returns (ok: bool)
      requires Valid()
      requires p.Word? && p.index != 0 ==> p.index - 1 in heads && 0 < p.index - 1 < words.Length - 2
      modifies this, words
      ensures Valid()
      ensures ok <==> p == Null || p == Word(0) || old(words[..])[p.index - 1] < 0
      ensures !ok || p == Null || p == Word(0) ==> Unchanged(old(words[..]), old(avail), old(heads), old(list))
      ensures ok && p != Null && p != Word(0) ==>
                && ReleaseOk(old(words[..]), old(avail), p.index - 1)
                && words[..] == Release(old(words[..]), old(avail), p.index - 1)
                && heads == ReleaseHeads(old(words[..]), old(heads), p.index - 1)
                && KeepsTaken(old(words[..]), words[..], old(heads), p.index - 1)
    {
      hide Inv, KeepsTaken, Release, ReleaseHeads, ReleaseOk;
      if p == Null || p == Word(0) { return true; }
      var idx := p.index - 1;
      NotZero(words[..], avail, heads, list, idx);
      if words[idx] > 0 { return false; }
      FreeBlock(idx);
      ok := true;
    }

    method FreeBlock(h: int)
      requires Valid() && Live(words[..], heads, h)
      modifies this, words
      ensures Valid()
      ensures ReleaseOk(old(words[..]), old(avail), h)
      ensures words[..] == Release(old(words[..]), old(avail), h)
      ensures heads == ReleaseHeads(old(words[..]), old(heads), h)
      ensures KeepsTaken(old(words[..]), words[..], old(heads), h)
    {
      hide Inv, KeepsTaken, Unlink, UnlinkAvail, CanUnlink, Push, Tag, ReleaseOk, ReleaseHeads;
      ghost var m := words[..];
      ghost var l' := ReleaseInv(m, avail, heads, list, h);
      NeighbourTags(m, avail, heads, list, h);
      var idx, sz := h, Len(words[h]);
      var leftIndex := idx - Len(words[idx - 1]);
      var rightIndex := idx + sz;
      if words[leftIndex] > 0 {
        Remove(leftIndex);
        idx := leftIndex;
        sz := sz + Len(words[leftIndex]);
      }
      assert words[..] == Detach(m, Left(m, h));
      if words[rightIndex] > 0 {
        Remove(rightIndex);
        sz := sz + Len(words[rightIndex]);
      }
      assert words[..] == Released(m, h);
      MakeAvail(idx, sz);
      heads, list := ReleaseHeads(m, heads, h), l';
    }

    /** A client stores into the payload of its own block. */
    method Store(ghost h: int, x: int, v: int)
      requires Valid() && Live(words[..], heads, h) && h < x < End(words[..], h) - 1 && x < words.Length
      modifies words
      ensures Valid() && words[..] == old(words[..])[x := v]
      ensures Live(words[..], heads, h) && Size(words[..], h) == old(Size(words[..], h))
      ensures KeepsTaken(old(words[..]), words[..], heads, h)
    {
      hide Inv, KeepsTaken;
      StoreInv(words[..], avail, heads, list, h, x, v);
      words[x] := v;
    }

    /** The user-space realloc.  `stray` is the model's word for a call that leaves its blocks: it reads before the array
        for the pointer of malloc(0), or is about to copy past the new payload; the state is then the one just before. */
    method Realloc(p: Ptr, newSize: nat) returns (q: Ptr, stray: bool)
      requires Valid() && newSize < U32
      requires p.Word? && p.index != 0 ==> p.index - 1 in heads && 0 < p.index - 1 < words.Length - 2
      modifies this, words
      ensures Valid()
      ensures p == Null && newSize == 0 ==> q == Word(0)
      ensures p == Null && newSize > 0 ==> (q == Null <==> NoneFits(old(words[..]), old(heads), Ints(newSize)))
      ensures p == Null && (newSize == 0 || q == Null) ==> Unchanged(old(words[..]), old(avail), old(heads), old(list))
      ensures p == Null && newSize > 0 && q != Null ==>
                && FirstFit(old(words[..]), old(list), Ints(newSize), q.index - 1)
                && Granted(old(words[..]), old(heads), words[..], heads, q, Ints(newSize))
      ensures p == Word(0) ==> q == Null && Unchanged(old(words[..]), old(avail), old(heads), old(list))
      ensures p == Null || newSize == 0 || (q == Null && p != Word(0)) ==> !stray
      ensures p == Word(0) && newSize > 0 ==> stray
      ensures p != Null && newSize == 0 ==> q == Null
      ensures IsBlockPtr(p) && (newSize == 0 || q == Null) && old(words[..])[p.index - 1] < 0 ==>
                && ReleaseOk(old(words[..]), old(avail), p.index - 1)
                && words[..] == Release(old(words[..]), old(avail), p.index - 1)
                && heads == ReleaseHeads(old(words[..]), old(heads), p.index - 1)
      ensures IsBlockPtr(p) && old(words[..])[p.index - 1] > 0 ==>
                q == Null && Unchanged(old(words[..]), old(avail), old(heads), old(list))
      ensures IsBlockPtr(p) && newSize > 0 && old(words[..])[p.index - 1] < 0 ==>
                (q == Null <==> NoneFits(old(words[..]), old(heads), Ints(newSize)))
      ensures IsBlockPtr(p) && newSize > 0 && old(words[..])[p.index - 1] < 0 && q != Null ==>
                && FirstFit(old(words[..]), old(list), Ints(newSize), q.index - 1)
                && TakeOk(old(words[..]), old(avail), q.index - 1, Ints(newSize))
                && var m1 := Take(old(words[..]), old(avail), q.index - 1, Ints(newSize));
                && (stray <==> Copies(4 * (Size(m1, q.index - 1) - 2), newSize, Size(old(words[..]), p.index - 1)))
                && (stray ==> words[..] == m1)
                && (!stray ==>
                      && KeepsTaken(old(words[..]), words[..], old(heads), p.index - 1) && !Live(words[..], heads, p.index - 1)
                      && Moved(old(words[..]), m1, words[..], heads, p.index, q, newSize)
                      && Preserved(old(words[..]), words[..], p.index, q.index, newSize))
    {
      hide Inv, KeepsTaken, Granted, Live, Release, ReleaseHeads, ReleaseOk, Copied, NoneFits, Moved, Preserved, Take, TakeOk, FirstFit;
      stray := false;
      if p == Null {
        q := UserMalloc(newSize);
        return;
      }
      if newSize == 0 {
        var _ := Free(p);
        return Null, false;
      }
      if p == Word(0) { return Null, true; }
      var idx := p.index - 1;
      NotZero(words[..], avail, heads, list, idx);
      if words[idx] > 0 {
        return Null, false;
      }
      ghost var m, h := words[..], heads;
      var sz := Len(words[idx]) * 4;
      IsLive(m, heads, idx);
      q := UserMalloc(newSize);
      ghost var m1 := words[..];
      if q == Null {
        FreeBlock(idx);
      } else {
        BeforeCopy(m, old(avail), h, old(list), m1, avail, heads, list, idx, q, newSize);
        var n := if newSize > sz then sz else newSize;
        if n > 4 * (Len(words[q.index - 1]) - 2) { return q, true; }
        CopyBytes(q.index - 1, q.index, p.index, n);
        ghost var m2, a2, h2, l2 := words[..], avail, heads, list;
        StillLive(m1, m2, heads, q.index - 1, idx);
        KeepsStep(m, m1, m2, h, heads, idx, q.index - 1);
        FreeBlock(idx);
        KeepsStep(m, m2, words[..], h, h2, idx, idx);
        LiveStays(m2, a2, h2, l2, idx, words[..], q.index - 1);
        IsMoved(m, m1, m2, words[..], heads, idx, q, newSize, n);
        IsPreserved(m, m1, words[..], heads, p.index, q, newSize);
        FreedNotLive(m2, a2, h2, l2, idx);
      }
    }

    ghost predicate IsBlockPtr(p: Ptr) {
      p.Word? && p.index != 0
    }

    /** memcpy of n bytes into the payload of block h from words that do not overlap the target. */
    method CopyBytes(ghost h: int, dst: int, src: int, n: nat)
      requires Valid() && Live(words[..], heads, h) && dst == h + 1 && n <= 4 * (Size(words[..], h) - 2)
      requires CopyRange(words[..], dst, src, n)
      modifies words
      ensures Valid() && Live(words[..], heads, h) && Size(words[..], h) == old(Size(words[..], h))
      ensures KeepsTaken(old(words[..]), words[..], heads, h)
      ensures Copied(old(words[..]), words[..], dst, src, n)
    {
      hide Inv, KeepsTaken, Live, CopiedWords;
      ghost var m := words[..];
      LiveRange(m, avail, heads, list, h);
      KeepsSame(m, heads, h);
      CopyNone(m, dst, src, n);
      var k := 0;
      while k < n / 4
        invariant 0 <= k <= n / 4
        invariant Valid() && Live(words[..], heads, h) && Size(words[..], h) == Size(m, h)
        invariant KeepsTaken(m, words[..], heads, h) && words[h] == m[h]
        invariant CopiedWords(m, words[..], dst, src, n, k)
      {
        ghost var before := words[..];
        CopyWord(m, before, dst, src, n, k);
        Store(h, dst + k, words[src + k]);
        KeepsAgain(m, before, words[..], avail, heads, list, h, dst + k);
        k := k + 1;
      }
      CopyEnd(m, words[..], dst, src, n);
      if n % 4 != 0 {
        ghost var before := words[..];
        Store(h, dst + k, Merge(words[dst + k], words[src + k], n % 4));
        KeepsAgain(m, before, words[..], avail, heads, list, h, dst + k);
      }
    }
  }

  predicate CopyRange(m: seq<int>, dst: int, src: int, n: nat) {
    && 0 <= dst && 0 <= src && dst + (n + 3) / 4 <= |m| && src + (n + 3) / 4 <= |m|
    && (src + (n + 3) / 4 <= dst || dst + (n + 3) / 4 <= src)
  }

  /** The first k words have been copied. */
  ghost predicate CopiedWords(m: seq<int>, m': seq<int>, dst: int, src: int, n: nat, k: nat) {
    && CopyRange(m, dst, src, n) && k <= n / 4 && |m'| == |m|
    && (forall x :: dst <= x < dst + k ==> m'[x] == m[x - dst + src])
    && (forall x :: 0 <= x < |m| && (x < dst || dst + k <= x) ==> m'[x] == m[x])
  }

  lemma CopyNone(m: seq<int>, dst: int, src: int, n: nat)
    requires CopyRange(m, dst, src, n)
    ensures CopiedWords(m, m, dst, src, n, 0)
  {
  }

  lemma CopyWord(m: seq<int>, m': seq<int>, dst: int, src: int, n: nat, k: nat)
    requires CopiedWords(m, m', dst, src, n, k) && k < n / 4
    ensures CopiedWords(m, m'[dst + k := m'[src + k]], dst, src, n, k + 1)
  {
  }

  lemma CopyEnd(m: seq<int>, m': seq<int>, dst: int, src: int, n: nat)
    requires CopiedWords(m, m', dst, src, n, n / 4)
    ensures n % 4 == 0 ==> Copied(m, m', dst, src, n)
    ensures n % 4 != 0 ==> Copied(m, m'[dst + n / 4 := Merge(m'[dst + n / 4], m'[src + n / 4], n % 4)], dst, src, n)
  {
  }

  /** realloc copies byte i: it takes the whole old block, tags included, for payload. */
  predicate Copies(i: int, newSize: nat, size: nat) {
    i < newSize && i < 4 * size
  }

  /** What realloc is for: byte i of the new payload is byte i of the old one, for every byte that both payloads have. */
  ghost predicate Preserved(m: seq<int>, m': seq<int>, p: int, q: int, newSize: nat) {
    && 0 < p && 0 < q && |m'| == |m| && End(m, p - 1) < |m| && Size(m, p - 1) >= 2 && q + Size(m', q - 1) - 2 <= |m'|
    && (forall i: nat {:trigger ByteAt(m', q, i)} :: i < newSize && i < 4 * (Size(m, p - 1) - 2) ==>
          i < 4 * (Size(m', q - 1) - 2) && ByteAt(m', q, i) == ByteAt(m, p, i))
  }

  lemma IsPreserved(m: seq<int>, m1: seq<int>, m': seq<int>, heads': set<int>, p: int, q: Ptr, newSize: nat)
    requires Moved(m, m1, m', heads', p, q, newSize) && 0 < q.index
    requires !Copies(4 * (Size(m1, q.index - 1) - 2), newSize, Size(m, p - 1))
    ensures Preserved(m, m', p, q.index, newSize)
  {
    hide ByteAt;
  }

  /** Byte i of the new payload is copied exactly when i is below both the new size and the size of the whole old block, from
      the array as it is after the allocation (m1); the other bytes are as the allocation left them.  Inside the old payload
      the bytes copied are those of the call (m). */
  ghost predicate Moved(m: seq<int>, m1: seq<int>, m': seq<int>, heads': set<int>, p: int, q: Ptr, newSize: nat) {
    && q.Word? && Live(m', heads', q.index - 1) && |m1| == |m| == |m'|
    && Size(m', q.index - 1) == Size(m1, q.index - 1) >= 2 && End(m', q.index - 1) <= |m'|
    && 0 < p && End(m, p - 1) < |m| && Size(m, p - 1) >= 2
    && (forall i: nat :: i < 4 * (Size(m1, q.index - 1) - 2) ==>
          ByteAt(m', q.index, i) == if Copies(i, newSize, Size(m, p - 1)) then ByteAt(m1, p, i) else ByteAt(m1, q.index, i))
    && (forall i: nat :: i < 4 * (Size(m, p - 1) - 2) ==> ByteAt(m1, p, i) == ByteAt(m, p, i))
  }

  /** The copy leaves the old payload exactly when the new size exceeds it. */
  lemma OverReadIff(newSize: nat, size: nat)
    requires size >= 2
    ensures (exists i :: CopiedPastPayload(i, newSize, size)) <==> newSize > 4 * (size - 2)
  {
    assert CopiedPastPayload(4 * (size - 2), newSize, size) <==> newSize > 4 * (size - 2);
  }

  /** Byte i is copied though it lies past the payload of a block of `size` words. */
  predicate CopiedPastPayload(i: int, newSize: nat, size: nat) {
    4 * (size - 2) <= i && Copies(i, newSize, size)
  }

  /** The two words past the payload are the old block's own footer and the header of its right neighbour. */
  lemma OverReadTags(m1: seq<int>, avail: int, heads: set<int>, l: seq<int>, h: int)
    requires Inv(m1, avail, heads, l) && Live(m1, heads, h)
    ensures End(m1, h) < |m1| && m1[h + 1 + (Size(m1, h) - 2)] == m1[h] && h + 1 + (Size(m1, h) - 1) == End(m1, h) && End(m1, h) in heads
  {
    Around(m1, avail, heads, l, h);
  }

  /** The copy stays inside the granted payload exactly when the rounded request did not wrap, or the granted block happens
      to be two words longer than the old one. */
  lemma StaysInsideIff(newSize: nat, size: nat, granted: nat)
    requires 0 < newSize < U32 && 4 <= size < 0x4000_0000 && Ints(newSize) <= granted < Ints(newSize) + 4
    ensures !Copies(4 * (granted - 2), newSize, size) <==> newSize < U32 - 3 || size + 2 <= granted
  {
    RequestFitsIff(newSize);
    if newSize >= U32 - 3 { assert (newSize + 3) % U32 < 3; }
  }

  /** A small heap: one taken block of four words, one available block of eight, the sentinels. */
  function SmallHeap(): seq<int> {
    [-2, -2, -4, 10, 11, -4, 8, 0, 0, 0, 0, 0, 0, 8, -2, -2]
  }

  lemma SmallHeapInv()
    ensures Inv(SmallHeap(), 6, {0, 2, 6, 14}, [6]) && Live(SmallHeap(), {0, 2, 6, 14}, 2) && Size(SmallHeap(), 2) == 4
  {
    hide Tiled;
    TwoBlocks(SmallHeap(), {0, 2, 6, 14});
    assert LinkedAt(SmallHeap(), [6], 0);
  }

  lemma TwoBlocks(m: seq<int>, heads: set<int>)
    requires |m| == 16 && m[0] == m[1] == -2 && m[2] == m[5] == -4 && m[6] == m[13] == 8 && m[14] == m[15] == -2
    requires heads == {0, 2, 6, 14}
    ensures Tiled(m, heads)
  {
    assert End(m, 0) == 2 && End(m, 2) == 6 && End(m, 6) == 14 && End(m, 14) == 16;
    assert IsBlock(m, heads, 0) && IsBlock(m, heads, 2) && IsBlock(m, heads, 6) && IsBlock(m, heads, 14);
  }

  /** There, realloc from 8 bytes to 12 copies the low byte of the footer, -4, as byte 8 of the new payload. */
  lemma ReallocReadsFooter()
    ensures var m := SmallHeap();
            && TakeOk(m, 6, 6, Ints(12)) && FirstFit(m, [6], Ints(12), 6)
            && var m1 := Take(m, 6, 6, Ints(12));
            && 4 * (Size(m, 2) - 2) == 8 && Copies(8, 12, Size(m, 2)) && ByteAt(m1, 3, 8) == 252 && m1[5] == m[2] == -4
  {
    var m := SmallHeap();
    assert Ints(12) == 5 && Size(m, 6) == 8 && [6][0] == 6;
    assert Unlink(m, 6) == m;
    assert ByteOf(-4, 0) == 252;
  }

  /** And realloc to 2^32 - 1 bytes gets a payload of 8 bytes and sets out to copy 16. */
  lemma ReallocStrays()
    ensures var m := SmallHeap();
            && TakeOk(m, 6, 6, Ints(U32 - 1)) && FirstFit(m, [6], Ints(U32 - 1), 6)
            && var m1 := Take(m, 6, 6, Ints(U32 - 1));
            && Size(m1, 6) == 4 && Copies(15, U32 - 1, Size(m, 2)) && 15 >= 4 * (Size(m1, 6) - 2)
  {
    var m := SmallHeap();
    assert Ints(U32 - 1) == 4 && Size(m, 6) == 8 && [6][0] == 6;
    assert Unlink(m, 6) == m;
  }

  lemma IsLive(m: seq<int>, heads: set<int>, h: int)
    requires h in heads && 0 < h < |m| - 2 && m[h] < 0
    ensures Live(m, heads, h)
  {
  }

  /** After the allocation inside realloc: the old block is untouched and the copy does not overlap. */
  lemma BeforeCopy(m: seq<int>, avail: int, heads: set<int>, l: seq<int>, m1: seq<int>, avail1: int, heads1: set<int>, l1: seq<int>,
                   idx: int, q: Ptr, newSize: nat)
    requires Inv(m, avail, heads, l) && Live(m, heads, idx) && Inv(m1, avail1, heads1, l1)
    requires Granted(m, heads, m1, heads1, q, Ints(newSize)) && 0 < newSize < U32
    ensures Live(m1, heads1, idx) && Live(m1, heads1, q.index - 1) && q.index - 1 != idx && heads <= heads1
    ensures |m1| == |m| && 0 < idx && End(m, idx) <= |m| - 2
    ensures forall x :: idx <= x < End(m, idx) ==> m1[x] == m[x]
    ensures 4 <= Size(m1, q.index - 1)
    ensures Size(m1, idx) == Size(m, idx) && 4 <= Size(m, idx)
    ensures End(m1, idx) <= q.index - 1 || End(m1, q.index - 1) <= idx
    ensures KeepsTaken(m, m1, heads, idx) && Tiled(m, heads)
    ensures 1 < q.index < |m| && m[q.index - 1] > 0 && End(m1, q.index - 1) <= |m|
  {
    LiveRange(m, avail, heads, l, idx);
    var g := q.index - 1;
    assert InBlock(m, idx, idx);
    forall x | idx <= x < End(m, idx)
      ensures m1[x] == m[x]
    {
      assert InBlock(m, idx, x);
    }
    hide Linked, Fenced, ListsAvailable, Coalesced;
    assert InOrder(m1, idx, g) && InOrder(m1, g, idx) && IsBlock(m1, heads1, g);
  }

  lemma StillLive(m: seq<int>, m': seq<int>, heads: set<int>, ex: int, b: int)
    requires KeepsTaken(m, m', heads, ex) && Live(m, heads, b) && b != ex
    ensures Live(m', heads, b) && m'[b] == m[b]
  {
    assert InBlock(m, b, b);
  }

  /** Composition: what m1 keeps of m, m2 keeps too, if the second step only wrote outside the live blocks of m. */
  lemma KeepsStep(m: seq<int>, m1: seq<int>, m2: seq<int>, heads: set<int>, heads1: set<int>, ex: int, g: int)
    requires Tiled(m, heads) && heads <= heads1
    requires KeepsTaken(m, m1, heads, ex) && KeepsTaken(m1, m2, heads1, g)
    requires g == ex || (0 <= g < |m| && m[g] > 0)
    ensures KeepsTaken(m, m2, heads, ex)
  {
    forall b, x | b in heads && 0 <= b < |m| && m[b] < 0 && b != ex && InBlock(m, b, x) && x < |m|
      ensures m2[x] == m[x]
    {
      assert InBlock(m, b, b);
      assert m1[b] == m[b] && m1[x] == m[x];
      assert InBlock(m1, b, x);
    }
  }

  lemma LiveStays(m: seq<int>, avail: int, heads: set<int>, l: seq<int>, h: int, m': seq<int>, g: int)
    requires Inv(m, avail, heads, l) && Live(m, heads, h) && Live(m, heads, g) && g != h
    requires KeepsTaken(m, m', heads, h)
    ensures Live(m', ReleaseHeads(m, heads, h), g) && m'[g] == m[g] && End(m, g) <= |m|
    ensures forall x :: g <= x < End(m, g) ==> m'[x] == m[x]
  {
    LiveRange(m, avail, heads, l, g);
    StillLive(m, m', heads, h, g);
    Inside(m, avail, heads, l, h, g);
    hide Inv;
    forall x | g <= x < End(m, g)
      ensures m'[x] == m[x]
    {
      assert InBlock(m, g, x);
    }
  }

  /** After free the block is part of an available one. */
  lemma FreedNotLive(m: seq<int>, avail: int, heads: set<int>, l: seq<int>, h: int)
    requires Inv(m, avail, heads, l) && Live(m, heads, h) && ReleaseOk(m, avail, h)
    ensures !Live(Release(m, avail, h), ReleaseHeads(m, heads, h), h)
  {
    hide Inv, Release, Released, ReleaseTagged;
    Around(m, avail, heads, l, h);
    var _ := ReleaseWork(m, avail, heads, l, h);
    ReleaseTags(m, avail, heads, h);
  }

  lemma IsMoved(m: seq<int>, m1: seq<int>, m2: seq<int>, m3: seq<int>, heads: set<int>, idx: int, q: Ptr, newSize: nat, n: nat)
    requires q.Word? && Live(m3, heads, q.index - 1) && 0 < q.index - 1 && 0 <= idx && |m3| == |m2| == |m1| == |m|
    requires Size(m2, q.index - 1) == Size(m1, q.index - 1) >= 2 && Size(m, idx) >= 2 && End(m, idx) < |m|
    requires m3[q.index - 1] == m2[q.index - 1] && End(m2, q.index - 1) <= |m2|
    requires forall x :: q.index - 1 <= x < End(m2, q.index - 1) ==> m3[x] == m2[x]
    requires forall x :: idx <= x < End(m, idx) ==> m1[x] == m[x]
    requires Copied(m1, m2, q.index, idx + 1, n) && n == (if newSize > 4 * Size(m, idx) then 4 * Size(m, idx) else newSize)
    ensures Moved(m, m1, m3, heads, idx + 1, q, newSize)
  {
    hide Copied, Live, ByteOf;
    forall i: nat | i < 4 * (Size(m1, q.index - 1) - 2)
      ensures i < n ==> idx + 1 + i / 4 < |m1|
      ensures ByteAt(m3, q.index, i) == if i < n then ByteAt(m1, idx + 1, i) else ByteAt(m1, q.index, i)
    {
      WordIn(i, Size(m1, q.index - 1) - 2);
      if i < n { WordIn(i, Size(m, idx)); }
      CopiedByte(m1, m2, q.index, idx + 1, n, i);
    }
    var p := idx + 1;
    forall i: nat {:trigger ByteAt(m1, p, i)} | i < 4 * (Size(m, idx) - 2)
      ensures ByteAt(m1, p, i) == ByteAt(m, p, i)
    {
      WordIn(i, Size(m, idx) - 2);
    }
  }

  lemma WordIn(i: nat, words: nat)
    requires i < 4 * words
    ensures 0 <= i / 4 < words
  {
  }

  /** Words dst.. hold the first n bytes found at src.. in m, whole words first and then a part of one. */
  ghost predicate Copied(m: seq<int>, m': seq<int>, dst: int, src: int, n: nat) {
    && |m'| == |m| && 0 <= dst && 0 <= src && dst + (n + 3) / 4 <= |m| && src + (n + 3) / 4 <= |m|
    && (forall x :: dst <= x < dst + n / 4 ==> m'[x] == m[x - dst + src])
    && (n % 4 != 0 ==> m'[dst + n / 4] == Merge(m[dst + n / 4], m[src + n / 4], n % 4))
    && (forall x :: 0 <= x < |m| && (x < dst || dst + (n + 3) / 4 <= x) ==> m'[x] == m[x])
  }

  /** The first n bytes at dst are those at src, the others stay. */
  lemma CopiedByte(m: seq<int>, m': seq<int>, dst: int, src: int, n: nat, i: nat)
    requires Copied(m, m', dst, src, n) && dst + i / 4 < |m| && (i < n ==> src + i / 4 < |m|)
    ensures ByteAt(m', dst, i) == if i < n then ByteAt(m, src, i) else ByteAt(m, dst, i)
  {
    hide Merge, ByteOf;
    if i / 4 == n / 4 && n % 4 != 0 {
      MergeBytes(m[dst + n / 4], m[src + n / 4], n % 4, i % 4);
    }
  }

  lemma LiveRange(m: seq<int>, avail: int, heads: set<int>, l: seq<int>, h: int)
    requires Inv(m, avail, heads, l) && Live(m, heads, h)
    ensures 0 < h && 4 <= Size(m, h) && End(m, h) <= |m| - 2
  {
    Around(m, avail, heads, l, h);
  }

  lemma StoreInv(m: seq<int>, avail: int, heads: set<int>, l: seq<int>, h: int, x: int, v: int)
    requires Inv(m, avail, heads, l) && Live(m, heads, h) && h < x < End(m, h) - 1
    ensures 0 <= x < |m| && Inv(m[x := v], avail, heads, l) && KeepsTaken(m, m[x := v], heads, h)
    ensures Live(m[x := v], heads, h)
  {
    hide KeepsTaken, Tiled, SameTags, Linked, Fenced, Coalesced;
    Around(m, avail, heads, l, h);
    InvIsWork(m, avail, heads, l);
    KeepsSame(m, heads, h);
    WriteInside(m, m, heads, h, x - h, v);
    SameTagsKeepTiling(m, m[x := v], heads);
    SameTagsKeepFence(m, m[x := v], heads);
    SameTagsKeepCoalesced(m, m[x := v], heads);
    KeepWrite(m, m, heads, h, h, x, v);
    ApartFromList(m, avail, heads, l, h);
    LinkedOutside(m, m[x := v], avail, heads, l, {}, h, End(m, h));
  }

  lemma ApartFromList(m: seq<int>, avail: int, heads: set<int>, l: seq<int>, h: int)
    requires Inv(m, avail, heads, l) && Live(m, heads, h)
    ensures forall x :: x in l ==> End(m, x) <= h || End(m, h) <= x
  {
    forall x | x in l
      ensures End(m, x) <= h || End(m, h) <= x
    {
      assert InOrder(m, x, h) && InOrder(m, h, x);
    }
  }

  /** A further store into block h, counted from the words m at the start. */
  lemma KeepsAgain(m: seq<int>, m1: seq<int>, m2: seq<int>, avail: int, heads: set<int>, l: seq<int>, h: int, x: int)
    requires KeepsTaken(m, m1, heads, h) && |m2| == |m| && Inv(m1, avail, heads, l) && Live(m1, heads, h)
    requires h < x < End(m1, h) - 1 && m1[h] == m[h] && 0 <= x < |m| && m2 == m1[x := m2[x]]
    requires exists a, k :: Inv(m, a, heads, k)
    ensures KeepsTaken(m, m2, heads, h)
  {
    var a, k :| Inv(m, a, heads, k);
    hide Linked, Fenced, ListsAvailable, Coalesced, KeepsTaken;
    KeepWrite(m, m1, heads, h, h, x, m2[x]);
  }

  ghost predicate NoneFits(m: seq<int>, heads: set<int>, ints: nat) {
    forall h :: h in heads && 0 <= h < |m| && m[h] > 0 ==> Size(m, h) < ints
  }

  /** p is the payload of a block that was available in m and is live in m', and no other live block changed. */
  ghost predicate Granted(m: seq<int>, heads: set<int>, m': seq<int>, heads': set<int>, p: Ptr, ints: nat) {
    && p.Word?
    && p.index - 1 in heads && 0 < p.index - 1 < |m| && m[p.index - 1] > 0
    && Live(m', heads', p.index - 1)
    && ints <= Size(m', p.index - 1) < ints + 4
    && KeepsTaken(m, m', heads, p.index - 1)
    && heads <= heads'
  }

  lemma IsGranted(m: seq<int>, heads: set<int>, m': seq<int>, heads': set<int>, p: Ptr, ints: nat)
    requires p.Word? && p.index - 1 in heads && 0 < p.index - 1 < |m| && m[p.index - 1] > 0
    requires Live(m', heads', p.index - 1) && ints <= Size(m', p.index - 1) < ints + 4
    requires KeepsTaken(m, m', heads, p.index - 1) && heads <= heads'
    ensures Granted(m, heads, m', heads', p, ints)
  {
  }

  lemma FittingAll(m: seq<int>, avail: int, heads: set<int>, l: seq<int>, ints: nat, n: nat)
    requires Inv(m, avail, heads, l) && 0 < n
    ensures Fitting(m, l, ints, n) == [] <==> NoneFits(m, heads, ints)
  {
    if Fitting(m, l, ints, n) == [] {
      forall h | h in heads && 0 <= h < |m| && m[h] > 0
        ensures Size(m, h) < ints
      {
        if Size(m, h) >= ints { FittingFinds(m, l, ints, n, h); }
      }
    } else {
      var x := Fitting(m, l, ints, n)[0];
      FittingFits(m, l, ints, n, x);
      assert x in heads && m[x] > 0;
    }
  }

  lemma Chosen(m: seq<int>, l: seq<int>, ints: nat, n: nat, it: int) returns (k: nat)
    requires Smallest(m, Fitting(m, l, ints, n), it)
    ensures k < |l| && l[k] == it && ints <= Size(m, it)
  {
    FittingFits(m, l, ints, n, it);
    k :| 0 <= k < |l| && l[k] == it;
  }

  lemma NotZero(m: seq<int>, avail: int, heads: set<int>, l: seq<int>, h: int)
    requires Inv(m, avail, heads, l) && h in heads
    ensures 0 <= h < |m| && m[h] != 0
  {
    assert IsBlock(m, heads, h);
  }

  /** The tags free reads are those of the blocks on both sides, before and after it unlinks the left one. */
  lemma NeighbourTags(m: seq<int>, avail: int, heads: set<int>, l: seq<int>, h: int)
    requires Inv(m, avail, heads, l) && Live(m, heads, h) && ReleaseOk(m, avail, h)
    ensures Size(Detach(m, Left(m, h)), Left(m, h)) == Size(m, Left(m, h)) == h - Left(m, h)
    ensures Detach(m, Left(m, h))[End(m, h)] == m[End(m, h)] == Released(m, h)[End(m, h)]
    ensures 0 <= Left(m, h) < h < End(m, h) < |m|
    ensures m[Left(m, h)] > 0 ==> CanUnlink(m, Left(m, h))
    ensures m[End(m, h)] > 0 ==> CanUnlink(Detach(m, Left(m, h)), End(m, h))
    ensures 0 <= ReleasedAvail(m, avail, h) && ReleasedAvail(m, avail, h) + 2 < |m|
    ensures 0 <= NewStart(m, h) && NewStart(m, h) + 4 <= NewEnd(m, h) <= |m|
  {
    InvIsWork(m, avail, heads, l);
    Around(m, avail, heads, l, h);
    KeepsSame(m, heads, h);
    hide Work, Tiled, SameTags, KeepsTaken, Detach;
    WorkShape(m, avail, heads, l, {});
    var l1 := DetachWork(m, m, avail, heads, l, {}, h, Left(m, h));
    SameTagAt(m, Detach(m, Left(m, h)), heads, Left(m, h));
    SameTagAt(m, Detach(m, Left(m, h)), heads, End(m, h));
    var _ := ReleasedWork(m, avail, heads, l, h);
    SameTagAt(m, Released(m, h), heads, End(m, h));
  }

  /** What the search sees at position j of the list. */
  lemma Visit(m: seq<int>, avail: int, heads: set<int>, l: seq<int>, j: nat)
    requires Inv(m, avail, heads, l) && j < |l|
    ensures 0 < l[j] && l[j] + 2 < |m| && 0 < m[l[j]] < |m| && m[l[j] + 1] == At(l, j + 1)
    ensures j + 1 < |l| ==> l[j + 1] != 0
  {
    InvIsWork(m, avail, heads, l);
    OnList(m, avail, heads, l, {}, l[j]);
    assert LinkedAt(m, l, j);
    assert j + 1 < |l| ==> LinkedAt(m, l, j + 1);
  }

  lemma ListStart(m: seq<int>, avail: int, heads: set<int>, l: seq<int>)
    requires Inv(m, avail, heads, l)
    ensures avail == At(l, 0) && (l != [] ==> l[0] != 0)
  {
    assert l != [] ==> LinkedAt(m, l, 0);
  }

  lemma InitInv(m: seq<int>, len: int)
    requires len == |m| && 8 <= len
    requires m[0] == -2 && m[1] == -2 && m[2] == len - 4 && m[3] == 0 && m[4] == 0 && m[len - 3] == len - 4
    requires m[len - 2] == -2 && m[len - 1] == -2
    ensures Inv(m, 2, {0, 2, len - 2}, [2])
  {
    var heads := {0, 2, len - 2};
    assert IsBlock(m, heads, 0) && IsBlock(m, heads, 2) && IsBlock(m, heads, len - 2);
    assert LinkedAt(m, [2], 0);
  }
}
