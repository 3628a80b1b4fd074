/** The boundary-tag heap of kernel/heap.cc as facts about one sequence of words.

    A block starts at a header index h, holds |m[h]| words, repeats its tag in its last word, and is
    available exactly when the tag is positive.  An available block threads the free list through its
    second (next) and third (previous) words; index 0 stands for "no block". */
module HeapModel {

  function Len(tag: int): nat {
    if tag < 0 then -tag else tag
  }

  /** The number of words in the block headed at i. */
  function Size(m: seq<int>, i: int): nat {
    if 0 <= i < |m| then Len(m[i]) else 0
  }

  /** One past the last word of the block headed at h. */
  function End(m: seq<int>, h: int): int {
    h + Size(m, h)
  }

  // ---------- the shape of the heap ----------

  ghost predicate IsBlock(m: seq<int>, heads: set<int>, h: int) {
    && 0 <= h < |m|
    && 2 <= Size(m, h)
    && End(m, h) <= |m|
    && m[End(m, h) - 1] == m[h]
    && (End(m, h) == |m| || End(m, h) in heads)
  }

  /** Blocks do not overlap. */
  predicate InOrder(m: seq<int>, h: int, k: int) {
    h < k ==> End(m, h) <= k
  }

  /** The headers in `heads` cut the whole array into consecutive blocks with matching tags. */
  ghost predicate Tiled(m: seq<int>, heads: set<int>) {
    && 0 in heads
    && (forall h :: h in heads ==> 0 <= h < |m|)
    && (forall h {:trigger IsBlock(m, heads, h)} :: h in heads ==> IsBlock(m, heads, h))
    && (forall h, k {:trigger InOrder(m, h, k)} :: h in heads && k in heads ==> InOrder(m, h, k))
  }

  /** The two-word sentinels at both ends are taken, and every other block has room for the two links. */
  ghost predicate Fenced(m: seq<int>, heads: set<int>) {
    && 4 <= |m|
    && |m| - 2 in heads
    && m[0] == -2
    && m[|m| - 2] == -2
    && (forall h :: h in heads && h != 0 && h != |m| - 2 ==> 4 <= Size(m, h))
  }

  function At(l: seq<int>, i: int): int {
    if 0 <= i < |l| then l[i] else 0
  }

  predicate Apart(x: int, y: int) {
    x + 4 <= y || y + 4 <= x
  }

  /** Block l[i] is linked to its neighbours in l. */
  ghost predicate LinkedAt(m: seq<int>, l: seq<int>, i: int)
    requires 0 <= i < |l|
  {
    && 0 < l[i]
    && l[i] + 2 < |m|
    && m[l[i] + 1] == At(l, i + 1)
    && m[l[i] + 2] == At(l, i - 1)
  }

  /** Following `next` from avail visits exactly l and ends; `previous` is its inverse. */
  ghost predicate Linked(m: seq<int>, avail: int, l: seq<int>) {
    && avail == At(l, 0)
    && (forall i {:trigger LinkedAt(m, l, i)} :: 0 <= i < |l| ==> LinkedAt(m, l, i))
    && (forall i, j :: 0 <= i < j < |l| ==> Apart(l[i], l[j]))
  }

  /** The list holds exactly the available blocks. */
  ghost predicate ListsAvailable(m: seq<int>, heads: set<int>, l: seq<int>) {
    && (forall x :: x in l ==> x in heads)
    && (forall h :: h in heads && 0 <= h < |m| ==> (m[h] > 0 <==> h in l))
  }

  /** No two available blocks touch. */
  ghost predicate Coalesced(m: seq<int>, heads: set<int>) {
    forall h :: h in heads && 0 <= h < |m| && m[h] > 0 && End(m, h) < |m| ==> m[End(m, h)] < 0
  }

  ghost predicate Inv(m: seq<int>, avail: int, heads: set<int>, l: seq<int>) {
    && Tiled(m, heads)
    && Fenced(m, heads)
    && Linked(m, avail, l)
    && ListsAvailable(m, heads, l)
    && Coalesced(m, heads)
  }

  // ---------- the primitive updates ----------

  /** makeTaken and the first half of makeAvail: write the tag at both ends. */
  function Tag(m: seq<int>, i: int, tag: int): (r: seq<int>)
    requires 0 <= i < |m| && tag != 0 && i + Len(tag) <= |m|
    ensures |r| == |m|
  {
    m[i := tag][i + Len(tag) - 1 := tag]
  }

  predicate CanUnlink(m: seq<int>, i: int) {
    && 0 <= i && i + 2 < |m|
    && (m[i + 2] == 0 || (0 <= m[i + 2] && m[i + 2] + 1 < |m|))
    && (m[i + 1] == 0 || (0 <= m[i + 1] && m[i + 1] + 2 < |m|))
  }

  /** The words after remove(i). */
  function Unlink(m: seq<int>, i: int): (r: seq<int>)
    requires CanUnlink(m, i)
    ensures |r| == |m|
  {
    var p, n := m[i + 2], m[i + 1];
    var m1 := if p == 0 then m else m[p + 1 := n];
    if n == 0 then m1 else m1[n + 2 := p]
  }

  /** avail after remove(i). */
  function UnlinkAvail(m: seq<int>, avail: int, i: int): int
    requires CanUnlink(m, i)
  {
    if m[i + 2] == 0 then m[i + 1] else avail
  }

  /** The second half of makeAvail: push block i on the front of the list. */
  function Push(m: seq<int>, avail: int, i: int): (r: seq<int>)
    requires 0 <= i && i + 2 < |m| && 0 <= avail && avail + 2 < |m|
    ensures |r| == |m|
  {
    var m1 := m[i + 1 := avail][i + 2 := 0];
    if avail == 0 then m1 else m1[avail + 2 := i]
  }

  // ---------- the tiling covers the array ----------

  /** Headers reached from i by the tags alone, without the ghost set. */
  ghost function Walk(m: seq<int>, i: int): set<int>
    requires 0 <= i <= |m|
    decreases |m| - i
  {
    if i == |m| || Size(m, i) == 0 || End(m, i) > |m| then {} else {i} + Walk(m, End(m, i))
  }

  /** The header set is no extra information: walking the tags from 0 finds exactly it. */
  lemma {:induction false} WalkFindsHeads(m: seq<int>, heads: set<int>, i: int)
    requires Tiled(m, heads)
    requires i in heads || i == |m|
    ensures 0 <= i <= |m|
    ensures Walk(m, i) == set h | h in heads && i <= h
    decreases |m| - i
  {
    if i in heads {
      assert IsBlock(m, heads, i);
      WalkFindsHeads(m, heads, End(m, i));
      forall h | h in heads && i <= h
        ensures h == i || End(m, i) <= h
      {
        assert InOrder(m, i, h);
      }
      assert forall h :: h in heads && i <= h <==> h == i || (h in heads && End(m, i) <= h);
    } else {
      assert forall h :: h in heads ==> IsBlock(m, heads, h);
    }
  }

  /** The block that covers word x, found by walking right from a header at or before x. */
  lemma {:induction false} Cover(m: seq<int>, heads: set<int>, h: int, x: int) returns (b: int)
    requires Tiled(m, heads) && h in heads && h <= x < |m|
    ensures b in heads && IsBlock(m, heads, b) && b <= x < End(m, b)
    decreases |m| - h
  {
    assert IsBlock(m, heads, h);
    if x < End(m, h) {
      b := h;
    } else {
      b := Cover(m, heads, End(m, h), x);
    }
  }

  /** Every word of the array lies in exactly one block. */
  lemma EveryWordInOneBlock(m: seq<int>, heads: set<int>, x: int)
    requires Tiled(m, heads) && 0 <= x < |m|
    ensures exists b :: b in heads && InBlock(m, b, x)
    ensures forall b, c :: b in heads && c in heads && InBlock(m, b, x) && InBlock(m, c, x) ==> b == c
  {
    var b := Cover(m, heads, 0, x);
    assert InBlock(m, b, x);
    forall b, c | b in heads && c in heads && InBlock(m, b, x) && InBlock(m, c, x)
      ensures b == c
    {
      assert InOrder(m, b, c) && InOrder(m, c, b);
    }
  }

  predicate InBlock(m: seq<int>, b: int, x: int) {
    b <= x < End(m, b)
  }

  // ---------- writes strictly inside a block ----------

  /** m' has the tags of m at every header and footer. */
  ghost predicate SameTags(m: seq<int>, m': seq<int>, heads: set<int>) {
    && |m'| == |m|
    && (forall h :: h in heads && 0 <= h < |m| && 0 < Size(m, h) && End(m, h) <= |m| ==>
                      m'[h] == m[h] && m'[End(m, h) - 1] == m[End(m, h) - 1])
  }

  lemma SameTagsKeepBlock(m: seq<int>, m': seq<int>, heads: set<int>, h: int)
    requires IsBlock(m, heads, h) && SameTags(m, m', heads) && h in heads
    ensures IsBlock(m', heads, h) && m'[h] == m[h]
  {
  }

  lemma SameTagsKeepTiling(m: seq<int>, m': seq<int>, heads: set<int>)
    requires Tiled(m, heads) && SameTags(m, m', heads)
    ensures Tiled(m', heads)
    ensures forall h :: h in heads ==> m'[h] == m[h]
  {
    forall h {:trigger IsBlock(m', heads, h)} | h in heads
      ensures IsBlock(m', heads, h)
    {
      SameTagsKeepBlock(m, m', heads, h);
    }
    forall h | h in heads
      ensures m'[h] == m[h]
    {
      SameTagsKeepBlock(m, m', heads, h);
    }
    forall h, k | h in heads && k in heads
      ensures InOrder(m', h, k)
    {
      assert InOrder(m, h, k);
    }
  }

  lemma SameTagsKeepFence(m: seq<int>, m': seq<int>, heads: set<int>)
    requires Tiled(m, heads) && Fenced(m, heads) && SameTags(m, m', heads)
    ensures Fenced(m', heads)
  {
    SameTagsKeepTiling(m, m', heads);
    forall h | h in heads && h != 0 && h != |m| - 2
      ensures 4 <= Size(m', h)
    {
      assert IsBlock(m, heads, h);
    }
  }

  lemma SameTagsKeepCoalesced(m: seq<int>, m': seq<int>, heads: set<int>)
    requires Tiled(m, heads) && Coalesced(m, heads) && SameTags(m, m', heads)
    ensures Coalesced(m', heads)
  {
    forall h | h in heads && 0 <= h < |m'| && m'[h] > 0 && End(m', h) < |m'|
      ensures m'[End(m', h)] < 0
    {
      SameTagsKeepBlock(m, m', heads, h);
      SameTagsKeepBlock(m, m', heads, End(m, h));
    }
  }

  /** Starting from the tags of m, a write strictly inside block b leaves them alone. */
  lemma WriteInside(m: seq<int>, m': seq<int>, heads: set<int>, b: int, off: int, v: int)
    requires Tiled(m, heads) && b in heads && IsBlock(m, heads, b) && 0 < off < Size(m, b) - 1
    requires SameTags(m, m', heads)
    ensures SameTags(m, m'[b + off := v], heads)
  {
    forall h | h in heads
      ensures h != b + off && End(m, h) - 1 != b + off && 0 <= h && 0 < Size(m, h) && End(m, h) <= |m|
    {
      assert IsBlock(m, heads, h);
      assert InOrder(m, h, b) && InOrder(m, b, h);
    }
  }

  // ---------- retagging and splitting ----------

  /** The headers left when the words from h to e become one block. */
  ghost function Fuse(heads: set<int>, h: int, e: int): set<int> {
    set k | k in heads && (k <= h || e <= k)
  }

  ghost predicate CanRetag(m: seq<int>, heads: set<int>, h: int, tag: int) {
    && Tiled(m, heads)
    && h in heads && 0 <= h
    && 2 <= Len(tag)
    && (h + Len(tag) == |m| || (h + Len(tag) in heads && h + Len(tag) < |m|))
  }

  /** Retagging h with a length that ends on a block boundary fuses every block in between. */
  lemma RetagTiled(m: seq<int>, heads: set<int>, h: int, tag: int)
    requires CanRetag(m, heads, h, tag)
    ensures Tiled(Tag(m, h, tag), Fuse(heads, h, h + Len(tag)))
    ensures forall k :: k in heads && (k < h || h + Len(tag) <= k) ==> 0 <= k < |m| && Tag(m, h, tag)[k] == m[k]
  {
    var e := h + Len(tag);
    var m' := Tag(m, h, tag);
    var heads' := Fuse(heads, h, e);
    forall k | k in heads && (k < h || e <= k)
      ensures IsBlock(m', heads', k) && m'[k] == m[k]
    {
      RetagOther(m, heads, h, tag, k);
    }
    assert IsBlock(m', heads', h);
    forall j, k | j in heads' && k in heads'
      ensures InOrder(m', j, k)
    {
      RetagOrder(m, heads, h, tag, j, k);
    }
  }

  lemma RetagOrder(m: seq<int>, heads: set<int>, h: int, tag: int, j: int, k: int)
    requires CanRetag(m, heads, h, tag)
    requires j in Fuse(heads, h, h + Len(tag)) && k in Fuse(heads, h, h + Len(tag))
    ensures InOrder(Tag(m, h, tag), j, k)
  {
    if j != h {
      RetagOther(m, heads, h, tag, j);
      assert InOrder(m, j, k);
    }
  }

  lemma RetagOther(m: seq<int>, heads: set<int>, h: int, tag: int, k: int)
    requires CanRetag(m, heads, h, tag)
    requires k in heads && (k < h || h + Len(tag) <= k)
    ensures IsBlock(m, heads, k)
    ensures IsBlock(Tag(m, h, tag), Fuse(heads, h, h + Len(tag)), k) && Tag(m, h, tag)[k] == m[k]
  {
    assert IsBlock(m, heads, k);
    if k < h {
      assert InOrder(m, k, h);
    }
  }

  ghost predicate CanSplit(m: seq<int>, heads: set<int>, h: int, t1: int, t2: int) {
    && Tiled(m, heads)
    && h in heads && IsBlock(m, heads, h)
    && 2 <= Len(t1) && 2 <= Len(t2)
    && Len(t1) + Len(t2) == Size(m, h)
  }

  function Split(m: seq<int>, h: int, t1: int, t2: int): (r: seq<int>)
    requires 0 <= h < |m| && t1 != 0 && t2 != 0 && h + Len(t1) + Len(t2) <= |m|
    ensures |r| == |m|
  {
    Tag(Tag(m, h, t1), h + Len(t1), t2)
  }

  lemma SplitOther(m: seq<int>, heads: set<int>, h: int, t1: int, t2: int, k: int)
    requires CanSplit(m, heads, h, t1, t2) && k in heads && k != h
    ensures IsBlock(m, heads, k)
    ensures IsBlock(Split(m, h, t1, t2), heads + {h + Len(t1)}, k) && Split(m, h, t1, t2)[k] == m[k]
  {
    assert IsBlock(m, heads, k);
    if k < h {
      assert InOrder(m, k, h);
    } else {
      assert InOrder(m, h, k);
    }
  }

  lemma SplitParts(m: seq<int>, heads: set<int>, h: int, t1: int, t2: int)
    requires CanSplit(m, heads, h, t1, t2)
    ensures IsBlock(Split(m, h, t1, t2), heads + {h + Len(t1)}, h)
    ensures IsBlock(Split(m, h, t1, t2), heads + {h + Len(t1)}, h + Len(t1))
    ensures Split(m, h, t1, t2)[h] == t1 && Split(m, h, t1, t2)[h + Len(t1)] == t2
  {
  }

  lemma SplitTiled(m: seq<int>, heads: set<int>, h: int, t1: int, t2: int)
    requires CanSplit(m, heads, h, t1, t2)
    ensures Tiled(Split(m, h, t1, t2), heads + {h + Len(t1)})
    ensures forall k :: k in heads && k != h ==> 0 <= k < |m| && Split(m, h, t1, t2)[k] == m[k]
  {
    var s := h + Len(t1);
    var m' := Split(m, h, t1, t2);
    var heads' := heads + {s};
    forall k {:trigger IsBlock(m', heads', k)} | k in heads'
      ensures IsBlock(m', heads', k)
    {
      if k == h || k == s {
        SplitParts(m, heads, h, t1, t2);
      } else {
        SplitOther(m, heads, h, t1, t2, k);
      }
    }
    forall k | k in heads && k != h
      ensures m'[k] == m[k]
    {
      SplitOther(m, heads, h, t1, t2, k);
    }
    forall j, k | j in heads' && k in heads'
      ensures InOrder(m', j, k)
    {
      SplitOrder(m, heads, h, t1, t2, j, k);
    }
  }

  lemma SplitOrder(m: seq<int>, heads: set<int>, h: int, t1: int, t2: int, j: int, k: int)
    requires CanSplit(m, heads, h, t1, t2)
    requires j in heads + {h + Len(t1)} && k in heads + {h + Len(t1)}
    ensures InOrder(Split(m, h, t1, t2), j, k)
  {
    var s := h + Len(t1);
    if j != h && j != s {
      SplitOther(m, heads, h, t1, t2, j);
      if k == s {
        assert InOrder(m, j, h);
        assert InOrder(m, h, j);
      } else {
        assert InOrder(m, j, k);
      }
    } else if k != s {
      assert InOrder(m, h, k);
    }
  }

  // ---------- the list between the steps of one operation ----------

  /** Like ListsAvailable, except that the blocks in `loose` are available but not on the list. */
  ghost predicate ListsAllBut(m: seq<int>, heads: set<int>, l: seq<int>, loose: set<int>) {
    && (forall x :: x in l ==> x in heads && x !in loose)
    && (forall h :: h in heads && 0 <= h < |m| ==> (m[h] > 0 <==> h in l || h in loose))
  }

  ghost predicate Work(m: seq<int>, avail: int, heads: set<int>, l: seq<int>, loose: set<int>) {
    && Tiled(m, heads)
    && Fenced(m, heads)
    && Linked(m, avail, l)
    && ListsAllBut(m, heads, l, loose)
  }

  /** A listed or loose block is an ordinary available block away from both sentinels. */
  lemma OnList(m: seq<int>, avail: int, heads: set<int>, l: seq<int>, loose: set<int>, x: int)
    requires Work(m, avail, heads, l, loose) && x in heads && (x in l || x in loose)
    ensures IsBlock(m, heads, x) && m[x] > 0 && 4 <= Size(m, x) && 2 <= x && End(m, x) <= |m| - 2
  {
    assert IsBlock(m, heads, x);
    assert IsBlock(m, heads, 0);
    assert IsBlock(m, heads, |m| - 2);
    assert x != 0 && x != |m| - 2;
  }

  ghost predicate SameLinks(m: seq<int>, m': seq<int>, x: int) {
    0 <= x && x + 2 < |m| && |m'| == |m| ==> m'[x + 1] == m[x + 1] && m'[x + 2] == m[x + 2]
  }

  lemma LinkedFrame(m: seq<int>, m': seq<int>, avail: int, l: seq<int>)
    requires Linked(m, avail, l) && |m'| == |m|
    requires forall x :: x in l ==> SameLinks(m, m', x)
    ensures Linked(m', avail, l)
  {
    forall i {:trigger LinkedAt(m', l, i)} | 0 <= i < |l|
      ensures LinkedAt(m', l, i)
    {
      assert LinkedAt(m, l, i) && SameLinks(m, m', l[i]);
    }
  }

  function Without(l: seq<int>, k: nat): seq<int>
    requires k < |l|
  {
    l[..k] + l[k + 1..]
  }

  lemma WithoutAt(l: seq<int>, k: nat, x: int)
    requires k < |l| && forall i, j :: 0 <= i < j < |l| ==> l[i] != l[j]
    ensures x in Without(l, k) <==> x in l && x != l[k]
  {
    var r := Without(l, k);
    if x in l && x != l[k] {
      var i :| 0 <= i < |l| && l[i] == x;
      assert r[if i < k then i else i - 1] == x;
    }
    if x in r {
      var i :| 0 <= i < |r| && r[i] == x;
      assert l[if i < k then i else i + 1] == x;
    }
  }

  lemma UnlinkLinked(m: seq<int>, avail: int, l: seq<int>, k: nat)
    requires Linked(m, avail, l) && k < |l|
    ensures CanUnlink(m, l[k])
    ensures Linked(Unlink(m, l[k]), UnlinkAvail(m, avail, l[k]), Without(l, k))
  {
    assert LinkedAt(m, l, k);
    if 0 < k { assert LinkedAt(m, l, k - 1); }
    if k + 1 < |l| { assert LinkedAt(m, l, k + 1); }
    var r := Without(l, k);
    forall i | 0 <= i < |r|
      ensures LinkedAt(Unlink(m, l[k]), r, i)
    {
      UnlinkAt(m, avail, l, k, i);
    }
  }

  lemma UnlinkAt(m: seq<int>, avail: int, l: seq<int>, k: nat, i: nat)
    requires Linked(m, avail, l) && k < |l| && CanUnlink(m, l[k]) && i < |l| - 1
    ensures LinkedAt(Unlink(m, l[k]), Without(l, k), i)
  {
    var j := if i < k then i else i + 1;
    var p, n := At(l, k - 1), At(l, k + 1);
    assert LinkedAt(m, l, k);
    assert LinkedAt(m, l, j);
    assert 0 < k ==> LinkedAt(m, l, k - 1);
    assert k + 1 < |l| ==> LinkedAt(m, l, k + 1);
    assert j == k - 1 || p == 0 || Apart(l[j], p);
    assert j == k + 1 || n == 0 || Apart(l[j], n);
    assert p == 0 || n == 0 || Apart(p, n);
    WithoutLinks(l, k, i);
  }

  lemma WithoutLinks(l: seq<int>, k: nat, i: nat)
    requires k < |l| && i < |l| - 1
    ensures var r, j := Without(l, k), if i < k then i else i + 1;
            && r[i] == l[j]
            && At(r, i + 1) == (if j == k - 1 then At(l, k + 1) else At(l, j + 1))
            && At(r, i - 1) == (if j == k + 1 then At(l, k - 1) else At(l, j - 1))
  {
  }

  lemma UnlinkKeepsTags(m: seq<int>, avail: int, heads: set<int>, l: seq<int>, loose: set<int>, k: nat)
    requires Work(m, avail, heads, l, loose) && k < |l|
    ensures CanUnlink(m, l[k]) && SameTags(m, Unlink(m, l[k]), heads)
  {
    UnlinkLinked(m, avail, l, k);
    assert LinkedAt(m, l, k);
    var p, n := m[l[k] + 2], m[l[k] + 1];
    if p != 0 {
      OnList(m, avail, heads, l, loose, p);
    }
    if n != 0 {
      OnList(m, avail, heads, l, loose, n);
    }
    UnlinkTags(m, heads, l[k]);
  }

  ghost predicate Roomy(m: seq<int>, heads: set<int>, b: int) {
    b in heads && IsBlock(m, heads, b) && 4 <= Size(m, b)
  }

  lemma SameTagsSelf(m: seq<int>, heads: set<int>)
    ensures SameTags(m, m, heads)
  {
  }

  lemma RoomBelow(m: seq<int>, heads: set<int>, b: int)
    requires Roomy(m, heads, b)
    ensures 0 <= b && b + 4 <= |m|
  {
  }

  lemma UnlinkTags(m: seq<int>, heads: set<int>, i: int)
    requires Tiled(m, heads) && CanUnlink(m, i)
    requires m[i + 2] == 0 || Roomy(m, heads, m[i + 2])
    requires m[i + 1] == 0 || Roomy(m, heads, m[i + 1])
    ensures SameTags(m, Unlink(m, i), heads)
  {
    hide Tiled, SameTags, IsBlock;
    var p, n := m[i + 2], m[i + 1];
    var m1 := if p == 0 then m else m[p + 1 := n];
    SameTagsSelf(m, heads);
    if p != 0 {
      WriteInside(m, m, heads, p, 1, n);
    }
    if n != 0 {
      WriteInside(m, m1, heads, n, 2, p);
    }
  }

  lemma ListDistinct(m: seq<int>, avail: int, l: seq<int>)
    requires Linked(m, avail, l)
    ensures forall i, j :: 0 <= i < j < |l| ==> l[i] != l[j]
  {
    forall i, j | 0 <= i < j < |l|
      ensures l[i] != l[j]
    {
      assert Apart(l[i], l[j]);
    }
  }

  /** remove(i): the block leaves the list and nothing else changes. */
  lemma UnlinkWork(m: seq<int>, avail: int, heads: set<int>, l: seq<int>, loose: set<int>, k: nat)
    requires Work(m, avail, heads, l, loose) && k < |l|
    ensures CanUnlink(m, l[k])
    ensures Work(Unlink(m, l[k]), UnlinkAvail(m, avail, l[k]), heads, Without(l, k), loose + {l[k]})
    ensures SameTags(m, Unlink(m, l[k]), heads)
  {
    UnlinkLinked(m, avail, l, k);
    UnlinkKeepsTags(m, avail, heads, l, loose, k);
    var m' := Unlink(m, l[k]);
    SameTagsKeepTiling(m, m', heads);
    SameTagsKeepFence(m, m', heads);
    ListDistinct(m, avail, l);
    forall x
      ensures x in Without(l, k) <==> x in l && x != l[k]
    {
      WithoutAt(l, k, x);
    }
  }

  lemma PushLinked(m: seq<int>, avail: int, l: seq<int>, b: int)
    requires Linked(m, avail, l) && 0 < b && b + 2 < |m| && forall x :: x in l ==> Apart(b, x)
    ensures 0 <= avail && avail + 2 < |m|
    ensures Linked(Push(m, avail, b), b, [b] + l)
  {
    if l != [] { assert LinkedAt(m, l, 0); }
    var m', l' := Push(m, avail, b), [b] + l;
    forall i {:trigger LinkedAt(m', l', i)} | 0 <= i < |l'|
      ensures LinkedAt(m', l', i)
    {
      PushAt(m, avail, l, b, i);
    }
  }

  lemma PushAt(m: seq<int>, avail: int, l: seq<int>, b: int, i: nat)
    requires Linked(m, avail, l) && 0 < b && b + 2 < |m| && forall x :: x in l ==> Apart(b, x)
    requires 0 <= avail && avail + 2 < |m| && i <= |l|
    ensures LinkedAt(Push(m, avail, b), [b] + l, i)
  {
    if 0 < i {
      assert LinkedAt(m, l, i - 1);
      assert Apart(b, l[i - 1]);
      if 1 < i { assert Apart(l[0], l[i - 1]); }
    } else if l != [] {
      assert Apart(b, l[0]);
    }
  }

  lemma PushKeepsTags(m: seq<int>, avail: int, heads: set<int>, l: seq<int>, loose: set<int>, b: int)
    requires Work(m, avail, heads, l, loose) && b in heads && b in loose
    ensures 0 <= avail && avail + 2 < |m| && 0 <= b && b + 2 < |m|
    ensures SameTags(m, Push(m, avail, b), heads)
  {
    OnList(m, avail, heads, l, loose, b);
    if l != [] { OnList(m, avail, heads, l, loose, l[0]); }
    PushTags(m, avail, heads, b);
  }

  lemma PushTags(m: seq<int>, avail: int, heads: set<int>, b: int)
    requires Tiled(m, heads) && Roomy(m, heads, b) && (avail == 0 || Roomy(m, heads, avail))
    ensures 0 <= avail && avail + 2 < |m| && SameTags(m, Push(m, avail, b), heads)
  {
    hide Tiled, SameTags, IsBlock;
    RoomBelow(m, heads, b);
    if avail != 0 { RoomBelow(m, heads, avail); }
    SameTagsSelf(m, heads);
    WriteInside(m, m, heads, b, 1, avail);
    WriteInside(m, m[b + 1 := avail], heads, b, 2, 0);
    if avail != 0 {
      WriteInside(m, m[b + 1 := avail][b + 2 := 0], heads, avail, 2, b);
    }
  }

  /** The list half of makeAvail: a loose block becomes the first of the list. */
  lemma PushWork(m: seq<int>, avail: int, heads: set<int>, l: seq<int>, loose: set<int>, b: int)
    requires Work(m, avail, heads, l, loose) && b in heads && b in loose
    ensures 0 <= avail && avail + 2 < |m| && 0 <= b && b + 2 < |m|
    ensures Work(Push(m, avail, b), b, heads, [b] + l, loose - {b})
    ensures SameTags(m, Push(m, avail, b), heads)
  {
    OnList(m, avail, heads, l, loose, b);
    PushKeepsTags(m, avail, heads, l, loose, b);
    forall x | x in l
      ensures Apart(b, x)
    {
      OnList(m, avail, heads, l, loose, x);
      assert InOrder(m, b, x) && InOrder(m, x, b);
    }
    PushLinked(m, avail, l, b);
    SameTagsKeepTiling(m, Push(m, avail, b), heads);
    SameTagsKeepFence(m, Push(m, avail, b), heads);
  }

  /** Words of m outside [h, e) are those of m'. */
  ghost predicate SameOutside(m: seq<int>, m': seq<int>, h: int, e: int) {
    |m'| == |m| && forall x :: 0 <= x < |m| && (x < h || e <= x) ==> m'[x] == m[x]
  }

  lemma LinkedOutside(m: seq<int>, m': seq<int>, avail: int, heads: set<int>, l: seq<int>, loose: set<int>, h: int, e: int)
    requires Work(m, avail, heads, l, loose) && SameOutside(m, m', h, e)
    requires forall x :: x in l ==> End(m, x) <= h || e <= x
    ensures Linked(m', avail, l)
  {
    forall x | x in l
      ensures SameLinks(m, m', x)
    {
      OnList(m, avail, heads, l, loose, x);
    }
    LinkedFrame(m, m', avail, l);
  }

  /** h is an ordinary block, and the words from h to h + Len(tag) are whole blocks, none of them listed. */
  ghost predicate CanTake(m: seq<int>, heads: set<int>, l: seq<int>, h: int, tag: int) {
    && CanRetag(m, heads, h, tag)
    && h != 0 && 4 <= Len(tag) && h + Len(tag) <= |m| - 2
    && (forall x :: x in l ==> x < h || h + Len(tag) <= x)
  }

  /** Tagging whole unlisted blocks as one block, loose if the tag is positive. */
  lemma RetagWork(m: seq<int>, avail: int, heads: set<int>, l: seq<int>, loose: set<int>, h: int, tag: int)
    requires Work(m, avail, heads, l, loose) && CanTake(m, heads, l, h, tag)
    requires forall x :: x in loose ==> h <= x < h + Len(tag)
    ensures Work(Tag(m, h, tag), avail, Fuse(heads, h, h + Len(tag)), l, if tag > 0 then {h} else {})
  {
    var e, m', heads' := h + Len(tag), Tag(m, h, tag), Fuse(heads, h, h + Len(tag));
    RetagTiled(m, heads, h, tag);
    forall x | x in l
      ensures End(m, x) <= h || e <= x
    {
      assert InOrder(m, x, h);
    }
    LinkedOutside(m, m', avail, heads, l, loose, h, e);
    assert Fenced(m', heads');
  }
}
