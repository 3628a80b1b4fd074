/** malloc's block-taking step and free's coalescing step, as functions on the words of the heap,
    with the proof that both keep the heap invariant and leave every other live block alone. */
module HeapSteps {
  import opened HeapModel

  // ---------- which words change ----------

  /** Every taken block of m, except possibly `ex`, has the same words in m'. */
  ghost predicate KeepsTaken(m: seq<int>, m': seq<int>, heads: set<int>, ex: int) {
    && |m'| == |m|
    && (forall b, x :: b in heads && 0 <= b < |m| && m[b] < 0 && b != ex && InBlock(m, b, x) && x < |m| ==> m'[x] == m[x])
  }

  /** Word x belongs to a block that an operation may write: an available one, or `ex`. */
  ghost predicate MayWrite(m: seq<int>, heads: set<int>, ex: int, c: int, x: int) {
    c in heads && 0 <= c < |m| && (m[c] > 0 || c == ex) && InBlock(m, c, x)
  }

  lemma KeepWrite(m: seq<int>, m': seq<int>, heads: set<int>, ex: int, c: int, x: int, v: int)
    requires Tiled(m, heads) && KeepsTaken(m, m', heads, ex) && 0 <= x < |m|
    requires MayWrite(m, heads, ex, c, x)
    ensures KeepsTaken(m, m'[x := v], heads, ex)
  {
    forall b | b in heads && m[b] < 0 && b != ex
      ensures !InBlock(m, b, x)
    {
      assert InOrder(m, b, c) && InOrder(m, c, b);
    }
  }

  lemma KeepTag(m: seq<int>, m': seq<int>, heads: set<int>, ex: int, h: int, tag: int, c: int, d: int)
    requires Tiled(m, heads) && KeepsTaken(m, m', heads, ex)
    requires 0 <= h < |m| && tag != 0 && h + Len(tag) <= |m|
    requires MayWrite(m, heads, ex, c, h) && MayWrite(m, heads, ex, d, h + Len(tag) - 1)
    ensures KeepsTaken(m, Tag(m', h, tag), heads, ex)
  {
    KeepWrite(m, m', heads, ex, c, h, tag);
    KeepWrite(m, m'[h := tag], heads, ex, d, h + Len(tag) - 1, tag);
  }

  ghost predicate FreeRoom(m: seq<int>, heads: set<int>, b: int) {
    Roomy(m, heads, b) && m[b] > 0
  }

  lemma KeepUnlink(m: seq<int>, m': seq<int>, heads: set<int>, ex: int, i: int)
    requires Tiled(m, heads) && KeepsTaken(m, m', heads, ex) && CanUnlink(m', i)
    requires m'[i + 2] == 0 || FreeRoom(m, heads, m'[i + 2])
    requires m'[i + 1] == 0 || FreeRoom(m, heads, m'[i + 1])
    ensures KeepsTaken(m, Unlink(m', i), heads, ex)
  {
    var p, n := m'[i + 2], m'[i + 1];
    var m1 := if p == 0 then m' else m'[p + 1 := n];
    if p != 0 {
      KeepWrite(m, m', heads, ex, p, p + 1, n);
    }
    if n != 0 {
      KeepWrite(m, m1, heads, ex, n, n + 2, p);
    }
  }

  lemma KeepPush(m: seq<int>, m': seq<int>, heads: set<int>, ex: int, avail: int, b: int, c: int)
    requires Tiled(m, heads) && KeepsTaken(m, m', heads, ex)
    requires 0 <= b && b + 2 < |m| && 0 <= avail && avail + 2 < |m|
    requires MayWrite(m, heads, ex, c, b + 1) && MayWrite(m, heads, ex, c, b + 2)
    requires avail == 0 || FreeRoom(m, heads, avail)
    ensures KeepsTaken(m, Push(m', avail, b), heads, ex)
  {
    KeepWrite(m, m', heads, ex, c, b + 1, avail);
    KeepWrite(m, m'[b + 1 := avail], heads, ex, c, b + 2, 0);
    if avail != 0 {
      KeepWrite(m, m'[b + 1 := avail][b + 2 := 0], heads, ex, avail, avail + 2, b);
    }
  }

  lemma InvIsWork(m: seq<int>, avail: int, heads: set<int>, l: seq<int>)
    ensures Inv(m, avail, heads, l) <==> Work(m, avail, heads, l, {}) && Coalesced(m, heads)
  {
  }

  /** Unlinking l'[k] in the middle of an operation that started from m. */
  lemma KeepUnlinkOf(m: seq<int>, m': seq<int>, avail': int, heads: set<int>, l': seq<int>, loose: set<int>, ex: int, k: nat)
    requires Tiled(m, heads) && SameTags(m, m', heads) && KeepsTaken(m, m', heads, ex)
    requires Work(m', avail', heads, l', loose) && k < |l'|
    ensures CanUnlink(m', l'[k]) && KeepsTaken(m, Unlink(m', l'[k]), heads, ex)
  {
    UnlinkLinked(m', avail', l', k);
    assert LinkedAt(m', l', k);
    if 0 < k { ListedWas(m, m', avail', heads, l', loose, l'[k - 1]); }
    if k + 1 < |l'| { ListedWas(m, m', avail', heads, l', loose, l'[k + 1]); }
    hide Work;
    KeepUnlink(m, m', heads, ex, l'[k]);
  }

  lemma ListedWas(m: seq<int>, m': seq<int>, avail': int, heads: set<int>, l': seq<int>, loose: set<int>, x: int)
    requires Tiled(m, heads) && SameTags(m, m', heads)
    requires Work(m', avail', heads, l', loose) && x in l'
    ensures FreeRoom(m, heads, x)
  {
    OnList(m', avail', heads, l', loose, x);
    assert IsBlock(m, heads, x);
    SameTagsKeepBlock(m, m', heads, x);
  }

  lemma KeepsSame(m: seq<int>, heads: set<int>, ex: int)
    ensures KeepsTaken(m, m, heads, ex) && SameTags(m, m, heads)
  {
  }

  lemma WorkShape(m: seq<int>, avail: int, heads: set<int>, l: seq<int>, loose: set<int>)
    requires Work(m, avail, heads, l, loose)
    ensures Tiled(m, heads)
  {
  }

  lemma RoomyAfter(m: seq<int>, m': seq<int>, heads: set<int>, b: int)
    requires Tiled(m, heads) && SameTags(m, m', heads) && Roomy(m, heads, b)
    ensures Roomy(m', heads, b) && m'[b] == m[b] && Tiled(m', heads)
    ensures forall h :: h in heads ==> m'[h] == m[h]
  {
    SameTagsKeepTiling(m, m', heads);
    assert IsBlock(m', heads, b);
  }

  // ---------- malloc ----------

  lemma SplitWork(m: seq<int>, avail: int, heads: set<int>, l: seq<int>, h: int, ints: int)
    requires Work(m, avail, heads, l, {h}) && h in heads && 4 <= ints <= Size(m, h) - 4
    ensures IsBlock(m, heads, h)
    ensures Work(Split(m, h, -ints, Size(m, h) - ints), avail, heads + {h + ints}, l, {h + ints})
  {
    OnList(m, avail, heads, l, {h}, h);
    var extra := Size(m, h) - ints;
    var m', heads' := Split(m, h, -ints, extra), heads + {h + ints};
    SplitTiled(m, heads, h, -ints, extra);
    forall x | x in l
      ensures End(m, x) <= h || End(m, h) <= x
    {
      assert InOrder(m, x, h) && InOrder(m, h, x);
    }
    LinkedOutside(m, m', avail, heads, l, {h}, h, End(m, h));
    assert InOrder(m, h, 0) && InOrder(m, h, |m| - 2);
    assert Fenced(m', heads');
    NewHeadIsNew(m, heads, h, h + ints);
  }

  lemma NewHeadIsNew(m: seq<int>, heads: set<int>, h: int, s: int)
    requires Tiled(m, heads) && h in heads && h < s < End(m, h)
    ensures s !in heads
  {
    assert s in heads ==> InOrder(m, h, s);
  }

  predicate TakeOk(m: seq<int>, avail: int, h: int, ints: int) {
    && CanUnlink(m, h)
    && 4 <= ints <= Size(m, h) && End(m, h) <= |m|
    && Size(Unlink(m, h), h) == Size(m, h)
    && 0 <= UnlinkAvail(m, avail, h) && UnlinkAvail(m, avail, h) + 2 < |m|
  }

  /** The words after malloc takes `ints` words from the available block h. */
  function Take(m: seq<int>, avail: int, h: int, ints: int): (r: seq<int>)
    requires TakeOk(m, avail, h, ints)
    ensures |r| == |m|
  {
    var m1 := Unlink(m, h);
    var extra := Size(m, h) - ints;
    if extra >= 4 then Push(Split(m1, h, -ints, extra), UnlinkAvail(m, avail, h), h + ints) else Tag(m1, h, 0 - Size(m, h))
  }

  function TakeAvail(m: seq<int>, avail: int, h: int, ints: int): int
    requires CanUnlink(m, h)
  {
    if Size(m, h) - ints >= 4 then h + ints else UnlinkAvail(m, avail, h)
  }

  ghost function TakeHeads(m: seq<int>, heads: set<int>, h: int, ints: int): set<int> {
    if Size(m, h) - ints >= 4 then heads + {h + ints} else heads
  }

  ghost function TakeList(m: seq<int>, l: seq<int>, k: nat, ints: int): seq<int>
    requires k < |l|
  {
    if Size(m, l[k]) - ints >= 4 then [l[k] + ints] + Without(l, k) else Without(l, k)
  }

  /** What malloc finds when it has chosen block l[k]. */
  lemma TakeReady(m: seq<int>, avail: int, heads: set<int>, l: seq<int>, k: nat, ints: int)
    requires Work(m, avail, heads, l, {}) && k < |l| && 4 <= ints <= Size(m, l[k])
    ensures TakeOk(m, avail, l[k], ints)
    ensures UnlinkAvail(m, avail, l[k]) == 0 || (FreeRoom(m, heads, UnlinkAvail(m, avail, l[k])) && UnlinkAvail(m, avail, l[k]) != l[k])
    ensures l[k] in heads && FreeRoom(m, heads, l[k]) && 2 <= l[k] && End(m, l[k]) <= |m| - 2
  {
    UnlinkWork(m, avail, heads, l, {}, k);
    OnList(m, avail, heads, l, {}, l[k]);
    assert LinkedAt(m, l, k);
    var a := UnlinkAvail(m, avail, l[k]);
    assert a == 0 || a == At(l, k + 1) || a == l[0];
    if k + 1 < |l| { assert Apart(l[k], l[k + 1]); }
    if 0 < k { assert Apart(l[0], l[k]); }
    if a != 0 { OnList(m, avail, heads, l, {}, a); }
  }

  lemma TakeWork(m: seq<int>, avail: int, heads: set<int>, l: seq<int>, k: nat, ints: int)
    requires Work(m, avail, heads, l, {}) && k < |l| && 4 <= ints <= Size(m, l[k]) && TakeOk(m, avail, l[k], ints)
    ensures Work(Take(m, avail, l[k], ints), TakeAvail(m, avail, l[k], ints), TakeHeads(m, heads, l[k], ints), TakeList(m, l, k, ints), {})
  {
    hide Work, Push, Split, Tag, Unlink, UnlinkAvail, Without, CanUnlink, FreeRoom, TakeOk, IsBlock;
    var h := l[k];
    TakeReady(m, avail, heads, l, k, ints);
    UnlinkedWork(m, avail, heads, l, k);
    var m1, a1, l1 := Unlink(m, h), UnlinkAvail(m, avail, h), Without(l, k);
    if Size(m, h) - ints >= 4 {
      TakePart(m1, a1, heads, l1, h, ints);
    } else {
      TakeWhole(m1, a1, heads, l1, h);
    }
  }

  lemma UnlinkedWork(m: seq<int>, avail: int, heads: set<int>, l: seq<int>, k: nat)
    requires Work(m, avail, heads, l, {}) && k < |l|
    ensures l[k] in heads && CanUnlink(m, l[k])
    ensures Work(Unlink(m, l[k]), UnlinkAvail(m, avail, l[k]), heads, Without(l, k), {l[k]})
    ensures Size(Unlink(m, l[k]), l[k]) == Size(m, l[k])
  {
    UnlinkWork(m, avail, heads, l, {}, k);
    assert {} + {l[k]} == {l[k]};
    ListedIn(m, avail, heads, l, {}, l[k]);
    WorkShape(m, avail, heads, l, {});
    hide Work, Unlink, UnlinkAvail, Without, CanUnlink;
    SameTagAt(m, Unlink(m, l[k]), heads, l[k]);
  }

  lemma TakePart(m: seq<int>, avail: int, heads: set<int>, l: seq<int>, h: int, ints: int)
    requires Work(m, avail, heads, l, {h}) && h in heads && 4 <= ints <= Size(m, h) - 4
    ensures IsBlock(m, heads, h) && 0 <= avail && avail + 2 < |m| && 0 <= h
    ensures Work(Push(Split(m, h, -ints, Size(m, h) - ints), avail, h + ints), h + ints, heads + {h + ints}, [h + ints] + l, {})
  {
    SplitWork(m, avail, heads, l, h, ints);
    PushWork(Split(m, h, -ints, Size(m, h) - ints), avail, heads + {h + ints}, l, {h + ints}, h + ints);
    assert {h + ints} - {h + ints} == {};
  }

  lemma TakeWhole(m: seq<int>, avail: int, heads: set<int>, l: seq<int>, h: int)
    requires Work(m, avail, heads, l, {h}) && h in heads
    ensures IsBlock(m, heads, h)
    ensures Work(Tag(m, h, 0 - Size(m, h)), avail, heads, l, {})
  {
    OnList(m, avail, heads, l, {h}, h);
    forall x | x in l
      ensures x < h || End(m, h) <= x
    {
      assert InOrder(m, h, x);
    }
    RetagWork(m, avail, heads, l, {h}, h, 0 - Size(m, h));
    forall k | k in heads
      ensures k <= h || End(m, h) <= k
    {
      assert InOrder(m, h, k);
    }
    assert Fuse(heads, h, End(m, h)) == heads;
  }

  lemma TakeCoalesced(m: seq<int>, avail: int, heads: set<int>, l: seq<int>, k: nat, ints: int)
    requires Work(m, avail, heads, l, {}) && Coalesced(m, heads) && k < |l| && 4 <= ints <= Size(m, l[k])
    requires TakeOk(m, avail, l[k], ints)
    ensures Coalesced(Take(m, avail, l[k], ints), TakeHeads(m, heads, l[k], ints))
  {
    hide Work, Take, TakeOk, FreeRoom, Unlink, UnlinkAvail, CanUnlink;
    var h := l[k];
    var m' := Take(m, avail, h, ints);
    var heads' := TakeHeads(m, heads, h, ints);
    TakeReady(m, avail, heads, l, k, ints);
    TakeTags(m, avail, heads, l, k, ints);
    WorkShape(m, avail, heads, l, {});
    forall b | b in heads' && 0 <= b < |m'| && m'[b] > 0 && End(m', b) < |m'|
      ensures m'[End(m', b)] < 0
    {
      assert IsBlock(m, heads, h);
      if b in heads {
        assert IsBlock(m, heads, b);
      }
    }
  }

  /** The headers after Take: the chosen one is taken, a remainder is available, the others are as before. */
  lemma TakeTags(m: seq<int>, avail: int, heads: set<int>, l: seq<int>, k: nat, ints: int)
    requires Work(m, avail, heads, l, {}) && k < |l| && 4 <= ints <= Size(m, l[k]) && TakeOk(m, avail, l[k], ints)
    ensures var h, m' := l[k], Take(m, avail, l[k], ints);
            && m'[h] == (if Size(m, h) - ints >= 4 then -ints else 0 - Size(m, h))
            && (Size(m, h) - ints >= 4 ==> m'[h + ints] == Size(m, h) - ints)
            && (forall b :: b in heads && b != h ==> m'[b] == m[b])
  {
    hide Work, Tiled, Push, Tag, Split, Unlink, SameTags;
    var h := l[k];
    TakeReady(m, avail, heads, l, k, ints);
    UnlinkKeepsTags(m, avail, heads, l, {}, k);
    WorkShape(m, avail, heads, l, {});
    RoomyAfter(m, Unlink(m, h), heads, h);
    if UnlinkAvail(m, avail, h) != 0 { RoomyAfter(m, Unlink(m, h), heads, UnlinkAvail(m, avail, h)); }
    if Size(m, h) - ints >= 4 {
      PartTags(Unlink(m, h), UnlinkAvail(m, avail, h), heads, h, ints);
    } else {
      WholeTags(Unlink(m, h), heads, h);
    }
  }

  lemma PartTags(m: seq<int>, avail: int, heads: set<int>, h: int, ints: int)
    requires Tiled(m, heads) && Roomy(m, heads, h) && 4 <= ints <= Size(m, h) - 4
    requires avail == 0 || (Roomy(m, heads, avail) && avail != h)
    ensures 0 <= avail && avail + 2 < |m|
    ensures var m' := Push(Split(m, h, -ints, Size(m, h) - ints), avail, h + ints);
            && m'[h] == -ints
            && m'[h + ints] == Size(m, h) - ints
            && (forall b :: b in heads && b != h ==> m'[b] == m[b])
  {
    hide Tiled, Push, Split, SameTags;
    var extra := Size(m, h) - ints;
    SplitTiled(m, heads, h, -ints, extra);
    SplitParts(m, heads, h, -ints, extra);
    if avail != 0 {
      SplitOther(m, heads, h, -ints, extra, avail);
    }
    PushTags(Split(m, h, -ints, extra), avail, heads + {h + ints}, h + ints);
    RoomyAfter(Split(m, h, -ints, extra), Push(Split(m, h, -ints, extra), avail, h + ints), heads + {h + ints}, h + ints);
  }

  lemma WholeTags(m: seq<int>, heads: set<int>, h: int)
    requires Tiled(m, heads) && Roomy(m, heads, h)
    ensures Tag(m, h, 0 - Size(m, h))[h] == 0 - Size(m, h)
    ensures forall b :: b in heads && b != h ==> Tag(m, h, 0 - Size(m, h))[b] == m[b]
  {
    RetagTiled(m, heads, h, 0 - Size(m, h));
    forall b | b in heads && b != h
      ensures b < h || End(m, h) <= b
    {
      assert InOrder(m, h, b);
    }
  }

  lemma TakeKeeps(m: seq<int>, avail: int, heads: set<int>, l: seq<int>, k: nat, ints: int)
    requires Work(m, avail, heads, l, {}) && k < |l| && 4 <= ints <= Size(m, l[k]) && TakeOk(m, avail, l[k], ints)
    ensures KeepsTaken(m, Take(m, avail, l[k], ints), heads, l[k])
  {
    hide Work, KeepsTaken, Tiled, Push, Tag, Unlink, UnlinkAvail;
    var h := l[k];
    TakeReady(m, avail, heads, l, k, ints);
    WorkShape(m, avail, heads, l, {});
    KeepsSame(m, heads, h);
    KeepUnlinkOf(m, m, avail, heads, l, {}, h, k);
    var m1, extra := Unlink(m, h), Size(m, h) - ints;
    if extra >= 4 {
      KeepTag(m, m1, heads, h, h, -ints, h, h);
      KeepTag(m, Tag(m1, h, -ints), heads, h, h + ints, extra, h, h);
      KeepPush(m, Split(m1, h, -ints, extra), heads, h, UnlinkAvail(m, avail, h), h + ints, h);
    } else {
      KeepTag(m, m1, heads, h, h, 0 - Size(m, h), h, h);
    }
  }

  /** An ordinary taken block: what free may be given. */
  ghost predicate Live(m: seq<int>, heads: set<int>, h: int) {
    h in heads && 0 < h < |m| - 2 && m[h] < 0
  }

  /** malloc's taking step keeps the whole invariant and every word of every live block. */
  lemma TakeInv(m: seq<int>, avail: int, heads: set<int>, l: seq<int>, k: nat, ints: int)
    requires Inv(m, avail, heads, l) && k < |l| && 4 <= ints <= Size(m, l[k])
    ensures TakeOk(m, avail, l[k], ints)
    ensures Inv(Take(m, avail, l[k], ints), TakeAvail(m, avail, l[k], ints), TakeHeads(m, heads, l[k], ints), TakeList(m, l, k, ints))
    ensures KeepsTaken(m, Take(m, avail, l[k], ints), heads, l[k])
    ensures l[k] in heads && m[l[k]] > 0
    ensures Live(Take(m, avail, l[k], ints), TakeHeads(m, heads, l[k], ints), l[k])
    ensures ints <= Size(Take(m, avail, l[k], ints), l[k]) < ints + 4
  {
    hide Work, Coalesced, Inv, KeepsTaken;
    InvIsWork(m, avail, heads, l);
    TakeReady(m, avail, heads, l, k, ints);
    TakeTags(m, avail, heads, l, k, ints);
    TakeWork(m, avail, heads, l, k, ints);
    TakeCoalesced(m, avail, heads, l, k, ints);
    TakeKeeps(m, avail, heads, l, k, ints);
    InvIsWork(Take(m, avail, l[k], ints), TakeAvail(m, avail, l[k], ints), TakeHeads(m, heads, l[k], ints), TakeList(m, l, k, ints));
  }

  // ---------- free ----------

  /** The header of the block just left of h, read from its footer. */
  function Left(m: seq<int>, h: int): int
    requires 0 < h <= |m|
  {
    h - Len(m[h - 1])
  }

  lemma LeftIsBlock(m: seq<int>, heads: set<int>, h: int)
    requires Tiled(m, heads) && h in heads && 0 < h
    ensures Left(m, h) in heads && IsBlock(m, heads, Left(m, h)) && End(m, Left(m, h)) == h
  {
    var b := Cover(m, heads, 0, h - 1);
    assert InOrder(m, b, h);
  }

  /** The words after the optional remove(b) inside free. */
  function Detach(m: seq<int>, b: int): (r: seq<int>)
    requires 0 <= b < |m| && (m[b] > 0 ==> CanUnlink(m, b))
    ensures |r| == |m|
  {
    if m[b] > 0 then Unlink(m, b) else m
  }

  function DetachAvail(m: seq<int>, avail: int, b: int): int
    requires 0 <= b < |m| && (m[b] > 0 ==> CanUnlink(m, b))
  {
    if m[b] > 0 then UnlinkAvail(m, avail, b) else avail
  }

  function Found(m: seq<int>, b: int): set<int>
    requires 0 <= b < |m|
  {
    if m[b] > 0 then {b} else {}
  }

  lemma DetachWork(m0: seq<int>, m: seq<int>, avail: int, heads: set<int>, l: seq<int>, loose: set<int>, ex: int, b: int) returns (l': seq<int>)
    requires Tiled(m0, heads) && SameTags(m0, m, heads) && KeepsTaken(m0, m, heads, ex)
    requires Work(m, avail, heads, l, loose) && b in heads && b !in loose
    ensures 0 <= b < |m| && (m[b] > 0 ==> CanUnlink(m, b))
    ensures Work(Detach(m, b), DetachAvail(m, avail, b), heads, l', loose + Found(m, b))
    ensures SameTags(m0, Detach(m, b), heads) && KeepsTaken(m0, Detach(m, b), heads, ex)
  {
    InRange(m, avail, heads, l, loose, b);
    hide Work, Tiled, SameTags, KeepsTaken, Unlink, UnlinkAvail;
    if m[b] > 0 {
      var k :| 0 <= k < |l| && l[k] == b;
      l' := Without(l, k);
      UnlinkWork(m, avail, heads, l, loose, k);
      KeepUnlinkOf(m0, m, avail, heads, l, loose, ex, k);
      WorkShape(m, avail, heads, l, loose);
      SameTagsTrans(m0, m, Unlink(m, b), heads);
    } else {
      l' := l;
      assert loose + {} == loose;
    }
  }

  lemma InRange(m: seq<int>, avail: int, heads: set<int>, l: seq<int>, loose: set<int>, b: int)
    requires Work(m, avail, heads, l, loose) && b in heads && b !in loose
    ensures 0 <= b < |m| && (m[b] > 0 ==> b in l && CanUnlink(m, b))
  {
    if m[b] > 0 {
      var k :| 0 <= k < |l| && l[k] == b;
      UnlinkLinked(m, avail, l, k);
    }
  }

  lemma SameTagsTrans(m: seq<int>, m1: seq<int>, m2: seq<int>, heads: set<int>)
    requires Tiled(m, heads) && SameTags(m, m1, heads) && SameTags(m1, m2, heads)
    ensures SameTags(m, m2, heads)
  {
    forall h | h in heads
      ensures 0 < Size(m, h) && End(m, h) <= |m| && m2[h] == m[h] && m2[End(m, h) - 1] == m[End(m, h) - 1]
    {
      assert IsBlock(m, heads, h);
      SameTagsKeepBlock(m, m1, heads, h);
    }
  }

  /** Where the coalesced block starts and ends. */
  function NewStart(m: seq<int>, h: int): int
    requires 0 < h <= |m|
  {
    if 0 <= Left(m, h) < |m| && m[Left(m, h)] > 0 then Left(m, h) else h
  }

  function NewEnd(m: seq<int>, h: int): int
  {
    if 0 <= End(m, h) < |m| && m[End(m, h)] > 0 then End(m, End(m, h)) else End(m, h)
  }

  /** The blocks around a live block h of a heap in good order. */
  lemma Around(m: seq<int>, avail: int, heads: set<int>, l: seq<int>, h: int)
    requires Inv(m, avail, heads, l) && Live(m, heads, h)
    ensures IsBlock(m, heads, h) && 4 <= Size(m, h) && End(m, h) <= |m| - 2 && End(m, h) in heads && 0 <= End(m, h) < |m|
    ensures Left(m, h) in heads && 0 <= Left(m, h) < h && End(m, Left(m, h)) == h
    ensures 0 < NewStart(m, h) && NewEnd(m, h) <= |m| - 2 && NewEnd(m, h) in heads && NewStart(m, h) in heads
    ensures h - 4 >= NewStart(m, h) || h == NewStart(m, h)
    ensures NewEnd(m, h) - NewStart(m, h) >= 4
    ensures m[NewEnd(m, h)] < 0
  {
    InvIsWork(m, avail, heads, l);
    LeftIsBlock(m, heads, h);
    assert InOrder(m, h, |m| - 2) && IsBlock(m, heads, h);
    assert IsBlock(m, heads, End(m, h));
    var a, r := Left(m, h), End(m, h);
    if m[a] > 0 { OnList(m, avail, heads, l, {}, a); }
    if m[r] > 0 { OnList(m, avail, heads, l, {}, r); }
  }

  /** Only the freed block and its available neighbours lie in the coalesced range. */
  lemma Inside(m: seq<int>, avail: int, heads: set<int>, l: seq<int>, h: int, x: int)
    requires Inv(m, avail, heads, l) && Live(m, heads, h) && x in heads
    ensures NewStart(m, h) <= x < NewEnd(m, h) ==> x == h || (x == Left(m, h) && m[x] > 0) || (x == End(m, h) && m[x] > 0)
  {
    Around(m, avail, heads, l, h);
    assert InOrder(m, Left(m, h), x) && InOrder(m, h, x) && InOrder(m, End(m, h), x);
  }

  // The stages of free(h): detach the left neighbour, detach the right one, tag the union, push it.

  predicate ReleaseOk(m: seq<int>, avail: int, h: int) {
    && 0 < h < |m| && 0 <= Left(m, h) < |m| && 0 <= End(m, h) < |m|
    && (m[Left(m, h)] > 0 ==> CanUnlink(m, Left(m, h)))
    && (Detach(m, Left(m, h))[End(m, h)] > 0 ==> CanUnlink(Detach(m, Left(m, h)), End(m, h)))
    && 0 <= NewStart(m, h) && NewStart(m, h) + 4 <= NewEnd(m, h) <= |m|
    && 0 <= ReleasedAvail(m, avail, h) && ReleasedAvail(m, avail, h) + 2 < |m|
  }

  function Released(m: seq<int>, h: int): (r: seq<int>)
    requires 0 < h < |m| && 0 <= Left(m, h) < |m| && 0 <= End(m, h) < |m|
    requires m[Left(m, h)] > 0 ==> CanUnlink(m, Left(m, h))
    requires Detach(m, Left(m, h))[End(m, h)] > 0 ==> CanUnlink(Detach(m, Left(m, h)), End(m, h))
    ensures |r| == |m|
  {
    Detach(Detach(m, Left(m, h)), End(m, h))
  }

  function ReleasedAvail(m: seq<int>, avail: int, h: int): int
    requires 0 < h < |m| && 0 <= Left(m, h) < |m| && 0 <= End(m, h) < |m|
    requires m[Left(m, h)] > 0 ==> CanUnlink(m, Left(m, h))
    requires Detach(m, Left(m, h))[End(m, h)] > 0 ==> CanUnlink(Detach(m, Left(m, h)), End(m, h))
  {
    DetachAvail(Detach(m, Left(m, h)), DetachAvail(m, avail, Left(m, h)), End(m, h))
  }

  /** The words after free(h); avail becomes NewStart(m, h). */
  function Release(m: seq<int>, avail: int, h: int): (r: seq<int>)
    requires ReleaseOk(m, avail, h)
    ensures |r| == |m|
  {
    Push(Tag(Released(m, h), NewStart(m, h), NewEnd(m, h) - NewStart(m, h)), ReleasedAvail(m, avail, h), NewStart(m, h))
  }

  ghost function ReleaseHeads(m: seq<int>, heads: set<int>, h: int): set<int>
    requires 0 < h <= |m|
  {
    Fuse(heads, NewStart(m, h), NewEnd(m, h))
  }

  /** Both neighbours detached: the list holds exactly the other available blocks. */
  lemma ReleasedWork(m: seq<int>, avail: int, heads: set<int>, l: seq<int>, h: int) returns (l': seq<int>)
    requires Inv(m, avail, heads, l) && Live(m, heads, h)
    ensures ReleaseOk(m, avail, h)
    ensures Work(Released(m, h), ReleasedAvail(m, avail, h), heads, l', Found(m, Left(m, h)) + Found(m, End(m, h)))
    ensures SameTags(m, Released(m, h), heads) && KeepsTaken(m, Released(m, h), heads, h)
    ensures ReleasedAvail(m, avail, h) == 0 || FreeRoom(m, heads, ReleasedAvail(m, avail, h))
  {
    hide Work, Inv, SameTags, KeepsTaken, Tiled, Detach, DetachAvail;
    Around(m, avail, heads, l, h);
    InvIsWork(m, avail, heads, l);
    WorkShape(m, avail, heads, l, {});
    KeepsSame(m, heads, h);
    var a, r := Left(m, h), End(m, h);
    var l1 := DetachWork(m, m, avail, heads, l, {}, h, a);
    assert {} + Found(m, a) == Found(m, a);
    SameTagAt(m, Detach(m, a), heads, r);
    l' := DetachWork(m, Detach(m, a), DetachAvail(m, avail, a), heads, l1, Found(m, a), h, r);
    var v := ReleasedAvail(m, avail, h);
    ListHead(Released(m, h), v, heads, l', Found(m, a) + Found(m, r));
    if v != 0 { ListedWas(m, Released(m, h), v, heads, l', Found(m, a) + Found(m, r), v); }
  }

  lemma SameTagAt(m: seq<int>, m': seq<int>, heads: set<int>, b: int)
    requires Tiled(m, heads) && SameTags(m, m', heads) && b in heads
    ensures 0 <= b < |m| && m'[b] == m[b] && IsBlock(m, heads, b) && IsBlock(m', heads, b)
  {
    assert IsBlock(m, heads, b);
    SameTagsKeepBlock(m, m', heads, b);
  }

  lemma ListHead(m: seq<int>, avail: int, heads: set<int>, l: seq<int>, loose: set<int>)
    requires Work(m, avail, heads, l, loose)
    ensures 0 <= avail && avail + 2 < |m| && (avail == 0 || avail in l)
  {
    if l != [] { assert LinkedAt(m, l, 0); }
  }

  lemma ReleaseWork(m: seq<int>, avail: int, heads: set<int>, l: seq<int>, h: int) returns (l': seq<int>)
    requires Inv(m, avail, heads, l) && Live(m, heads, h)
    ensures ReleaseOk(m, avail, h)
    ensures Work(Release(m, avail, h), NewStart(m, h), ReleaseHeads(m, heads, h), l', {})
    ensures KeepsTaken(m, Release(m, avail, h), heads, h)
    ensures ReleaseTagged(m, avail, heads, h)
  {
    hide Work, Inv, SameTags, KeepsTaken, Tiled, Released, ReleasedAvail, Push, Tag, FreeRoom;
    Around(m, avail, heads, l, h);
    InvIsWork(m, avail, heads, l);
    WorkShape(m, avail, heads, l, {});
    var l1 := ReleasedWork(m, avail, heads, l, h);
    var m2, v, s, e := Released(m, h), ReleasedAvail(m, avail, h), NewStart(m, h), NewEnd(m, h);
    var loose := Found(m, Left(m, h)) + Found(m, End(m, h));
    forall x | x in l1
      ensures x < s || e <= x
    {
      ListedIn(m2, v, heads, l1, loose, x);
      Inside(m, avail, heads, l, h, x);
      SameTagAt(m, m2, heads, x);
    }
    l' := FuseWork(m2, v, heads, l1, loose, s, e);
    ReleaseKeeps(m, avail, heads, l, h);
  }

  /** The tags after free: those before it, one block for the union, and no change from the push. */
  ghost predicate ReleaseTagged(m: seq<int>, avail: int, heads: set<int>, h: int) {
    && Tiled(m, heads) && ReleaseOk(m, avail, h)
    && CanRetag(Released(m, h), heads, NewStart(m, h), NewEnd(m, h) - NewStart(m, h))
    && SameTags(m, Released(m, h), heads)
    && SameTags(Tag(Released(m, h), NewStart(m, h), NewEnd(m, h) - NewStart(m, h)), Release(m, avail, h), ReleaseHeads(m, heads, h))
  }

  /** Unlisted whole blocks from s to e become one block at the front of the list. */
  lemma FuseWork(m: seq<int>, avail: int, heads: set<int>, l: seq<int>, loose: set<int>, s: int, e: int) returns (l': seq<int>)
    requires Work(m, avail, heads, l, loose) && s in heads && e in heads && 0 < s && s + 4 <= e <= |m| - 2
    requires forall x :: x in l ==> x < s || e <= x
    requires forall x :: x in loose ==> s <= x < e
    ensures CanRetag(m, heads, s, e - s) && 0 <= avail && avail + 2 < |m|
    ensures Work(Push(Tag(m, s, e - s), avail, s), s, Fuse(heads, s, e), l', {})
    ensures SameTags(Tag(m, s, e - s), Push(Tag(m, s, e - s), avail, s), Fuse(heads, s, e))
  {
    hide Work, SameTags, Tiled, Push, Tag;
    WorkShape(m, avail, heads, l, loose);
    RetagWork(m, avail, heads, l, loose, s, e - s);
    HeadStays(heads, s, e);
    PushWork(Tag(m, s, e - s), avail, Fuse(heads, s, e), l, {s}, s);
    assert {s} - {s} == {};
    l' := [s] + l;
  }

  lemma ReleaseKeeps(m: seq<int>, avail: int, heads: set<int>, l: seq<int>, h: int)
    requires Inv(m, avail, heads, l) && Live(m, heads, h) && ReleaseOk(m, avail, h)
    ensures KeepsTaken(m, Release(m, avail, h), heads, h)
  {
    hide Work, Inv, SameTags, KeepsTaken, Tiled, Released, ReleasedAvail, Push, Tag;
    Around(m, avail, heads, l, h);
    InvIsWork(m, avail, heads, l);
    WorkShape(m, avail, heads, l, {});
    var _ := ReleasedWork(m, avail, heads, l, h);
    var m2, v, s, e := Released(m, h), ReleasedAvail(m, avail, h), NewStart(m, h), NewEnd(m, h);
    var c, d := if s == h then h else Left(m, h), if e == End(m, h) then h else End(m, h);
    KeepTag(m, m2, heads, h, s, e - s, c, d);
    KeepPush(m, Tag(m2, s, e - s), heads, h, v, s, c);
  }

  lemma HeadStays(heads: set<int>, s: int, e: int)
    requires s in heads
    ensures s in Fuse(heads, s, e)
  {
  }

  lemma ReleaseCoalesced(m: seq<int>, avail: int, heads: set<int>, l: seq<int>, h: int)
    requires Inv(m, avail, heads, l) && Live(m, heads, h) && ReleaseTagged(m, avail, heads, h)
    ensures Coalesced(Release(m, avail, h), ReleaseHeads(m, heads, h))
  {
    hide Work, Inv, Tiled, Release, SameTags, IsBlock, Live, CanRetag;
    Around(m, avail, heads, l, h);
    var m', s, e := Release(m, avail, h), NewStart(m, h), NewEnd(m, h);
    var heads' := ReleaseHeads(m, heads, h);
    ReleaseTags(m, avail, heads, h);
    forall b | b in heads' && 0 <= b < |m'| && m'[b] > 0 && End(m', b) < |m'|
      ensures m'[End(m', b)] < 0
    {
      if b != s {
        OtherAvail(m, avail, heads, l, h, b);
      }
    }
  }

  lemma ReleaseTags(m: seq<int>, avail: int, heads: set<int>, h: int)
    requires ReleaseTagged(m, avail, heads, h)
    ensures Release(m, avail, h)[NewStart(m, h)] == NewEnd(m, h) - NewStart(m, h)
    ensures forall b :: b in heads && (b < NewStart(m, h) || NewEnd(m, h) <= b) ==> 0 <= b < |m| && Release(m, avail, h)[b] == m[b]
  {
    hide Tiled, Released, Release, SameTags;
    var m2, s, e := Released(m, h), NewStart(m, h), NewEnd(m, h);
    RetagTiled(m2, heads, s, e - s);
    forall b | b in heads && (b < s || e <= b)
      ensures 0 <= b < |m| && Release(m, avail, h)[b] == m[b]
    {
      SameTagAt(m, m2, heads, b);
      SameTagAt(Tag(m2, s, e - s), Release(m, avail, h), Fuse(heads, s, e), b);
    }
    SameTagAt(Tag(m2, s, e - s), Release(m, avail, h), Fuse(heads, s, e), s);
  }

  /** An available block outside the coalesced range does not touch it. */
  lemma OtherAvail(m: seq<int>, avail: int, heads: set<int>, l: seq<int>, h: int, b: int)
    requires Inv(m, avail, heads, l) && Live(m, heads, h) && b in heads && 0 <= b < |m| && m[b] > 0
    requires b < NewStart(m, h) || NewEnd(m, h) <= b
    ensures End(m, b) in heads && 0 <= End(m, b) < |m| && m[End(m, b)] < 0
    ensures End(m, b) < NewStart(m, h) || NewEnd(m, h) <= End(m, b)
  {
    InvIsWork(m, avail, heads, l);
    Around(m, avail, heads, l, h);
    OnList(m, avail, heads, l, {}, b);
    Inside(m, avail, heads, l, h, End(m, b));
    assert InOrder(m, b, Left(m, h)) && InOrder(m, Left(m, h), b) && InOrder(m, b, h);
  }

  /** free keeps the whole invariant and every word of every other live block. */
  lemma ReleaseInv(m: seq<int>, avail: int, heads: set<int>, l: seq<int>, h: int) returns (l': seq<int>)
    requires Inv(m, avail, heads, l) && Live(m, heads, h)
    ensures ReleaseOk(m, avail, h)
    ensures Inv(Release(m, avail, h), NewStart(m, h), ReleaseHeads(m, heads, h), l')
    ensures KeepsTaken(m, Release(m, avail, h), heads, h)
  {
    hide Work, Inv, Coalesced, KeepsTaken, ReleaseTagged;
    l' := ReleaseWork(m, avail, heads, l, h);
    ReleaseCoalesced(m, avail, heads, l, h);
    InvIsWork(Release(m, avail, h), NewStart(m, h), ReleaseHeads(m, heads, h), l');
  }

  lemma ListedIn(m: seq<int>, avail: int, heads: set<int>, l: seq<int>, loose: set<int>, x: int)
    requires Work(m, avail, heads, l, loose) && x in l
    ensures x in heads && x !in loose && 0 <= x < |m| && m[x] > 0
  {
  }

  // ---------- malloc then free ----------

  /** The block before an available block is taken, and malloc leaves its footer alone. */
  lemma LeftOfTaken(m: seq<int>, avail: int, heads: set<int>, l: seq<int>, k: nat, ints: int)
    requires Inv(m, avail, heads, l) && k < |l| && 4 <= ints <= Size(m, l[k]) && TakeOk(m, avail, l[k], ints)
    ensures 0 < l[k] < |m|
    ensures NewStart(Take(m, avail, l[k], ints), l[k]) == l[k]
  {
    hide Take, Inv, TakeOk, KeepsTaken, Live, IsBlock;
    var h, m' := l[k], Take(m, avail, l[k], ints);
    BeforeListed(m, avail, heads, l, k);
    TakeInv(m, avail, heads, l, k, ints);
    var a := Left(m, h);
    LeftKept(m, m', heads, h, a, h - 1);
    LeftKept(m, m', heads, h, a, a);
  }

  /** The block before a listed one is taken, since available blocks do not touch. */
  lemma BeforeListed(m: seq<int>, avail: int, heads: set<int>, l: seq<int>, k: nat)
    requires Inv(m, avail, heads, l) && k < |l|
    ensures l[k] in heads && 0 < l[k] < |m|
    ensures var a := Left(m, l[k]); a in heads && 0 <= a < l[k] && m[a] < 0 && End(m, a) == l[k]
  {
    InvIsWork(m, avail, heads, l);
    OnList(m, avail, heads, l, {}, l[k]);
    LeftIsBlock(m, heads, l[k]);
    NeverZero(m, heads, Left(m, l[k]));
  }

  lemma LeftKept(m: seq<int>, m': seq<int>, heads: set<int>, h: int, a: int, x: int)
    requires KeepsTaken(m, m', heads, h) && a in heads && 0 <= a < h < |m| && m[a] < 0 && a <= x < End(m, a) <= |m|
    ensures |m'| == |m| && m'[x] == m[x]
  {
    assert InBlock(m, a, x);
  }

  lemma NeverZero(m: seq<int>, heads: set<int>, b: int)
    requires Tiled(m, heads) && b in heads
    ensures 0 <= b < |m| && m[b] != 0
  {
    assert IsBlock(m, heads, b);
  }

  /** free undoes malloc: the array is again cut into exactly the blocks it was cut into before. */
  lemma TakeThenRelease(m: seq<int>, avail: int, heads: set<int>, l: seq<int>, k: nat, ints: int)
    requires Inv(m, avail, heads, l) && k < |l| && 4 <= ints <= Size(m, l[k]) && TakeOk(m, avail, l[k], ints)
    ensures 0 < l[k] < |m|
    ensures ReleaseHeads(Take(m, avail, l[k], ints), TakeHeads(m, heads, l[k], ints), l[k]) == heads
  {
    hide Take, Inv, Work;
    var h, m' := l[k], Take(m, avail, l[k], ints);
    LeftOfTaken(m, avail, heads, l, k, ints);
    InvIsWork(m, avail, heads, l);
    TakeTags(m, avail, heads, l, k, ints);
    RightOf(m, avail, heads, l, k);
    assert NewEnd(m', h) == End(m, h);
    forall b | b in heads
      ensures b <= h || End(m, h) <= b
    {
      BlockAfter(m, avail, heads, l, h, b);
    }
    if Size(m, h) - ints >= 4 {
      StrictlyInside(m, avail, heads, l, h, h + ints);
    }
  }

  lemma RightOf(m: seq<int>, avail: int, heads: set<int>, l: seq<int>, k: nat)
    requires Inv(m, avail, heads, l) && k < |l|
    ensures l[k] in heads && 0 <= l[k] < End(m, l[k]) < |m| && End(m, l[k]) in heads && m[End(m, l[k])] < 0
  {
    InvIsWork(m, avail, heads, l);
    OnList(m, avail, heads, l, {}, l[k]);
  }

  lemma BlockAfter(m: seq<int>, avail: int, heads: set<int>, l: seq<int>, h: int, b: int)
    requires Inv(m, avail, heads, l) && h in heads && b in heads
    ensures b <= h || End(m, h) <= b
  {
    assert InOrder(m, h, b);
  }

  lemma StrictlyInside(m: seq<int>, avail: int, heads: set<int>, l: seq<int>, h: int, s: int)
    requires Inv(m, avail, heads, l) && h in heads && h < s < End(m, h)
    ensures s !in heads
  {
    NewHeadIsNew(m, heads, h, s);
  }
}
