/** All runs of malloc, free and payload writes on one heap. */
module HeapRuns {
  import opened HeapModel
  import opened HeapSteps
  import H = Heap

  /** The array and avail, with the headers and the free list they imply. */
  datatype State = State(m: seq<int>, avail: int, heads: set<int>, list: seq<int>)

  /** Malloc takes any listed block with room: which one the search picks does not matter here. */
  datatype Op = Malloc(k: nat, ints: int) | Free(h: int) | Write(h: int, x: int, v: int)

  ghost predicate Ok(s: State) {
    Inv(s.m, s.avail, s.heads, s.list)
  }

  ghost predicate Enabled(s: State, op: Op) {
    match op
    case Malloc(k, ints) => k < |s.list| && 4 <= ints <= Size(s.m, s.list[k])
    case Free(h) => Live(s.m, s.heads, h)
    case Write(h, x, _) => Live(s.m, s.heads, h) && h < x < End(s.m, h) - 1
  }

  ghost predicate Freed(s: State, h: int, l: seq<int>)
    requires 0 < h <= |s.m|
  {
    ReleaseOk(s.m, s.avail, h) && Inv(Release(s.m, s.avail, h), NewStart(s.m, h), ReleaseHeads(s.m, s.heads, h), l)
  }

  lemma FreeList(s: State, h: int)
    requires Ok(s) && Live(s.m, s.heads, h)
    ensures exists l :: Freed(s, h, l)
    ensures ReleaseOk(s.m, s.avail, h) && KeepsTaken(s.m, Release(s.m, s.avail, h), s.heads, h)
  {
    hide Inv, KeepsTaken, Release, ReleaseHeads, ReleaseOk;
    var l := ReleaseInv(s.m, s.avail, s.heads, s.list, h);
    assert Freed(s, h, l);
  }

  ghost function Next(s: State, op: Op): State
    requires Ok(s) && Enabled(s, op)
  {
    match op
    case Malloc(k, ints) =>
      TakeInv(s.m, s.avail, s.heads, s.list, k, ints);
      State(Take(s.m, s.avail, s.list[k], ints), TakeAvail(s.m, s.avail, s.list[k], ints),
            TakeHeads(s.m, s.heads, s.list[k], ints), TakeList(s.m, s.list, k, ints))
    case Free(h) =>
      FreeList(s, h);
      var l :| Freed(s, h, l);
      State(Release(s.m, s.avail, h), NewStart(s.m, h), ReleaseHeads(s.m, s.heads, h), l)
    case Write(h, x, v) =>
      H.StoreInv(s.m, s.avail, s.heads, s.list, h, x, v);
      s.(m := s.m[x := v])
  }

  lemma StepKeeps(s: State, op: Op)
    requires Ok(s) && Enabled(s, op)
    ensures Ok(Next(s, op))
  {
    hide Inv, Take, TakeHeads, TakeList, Release, ReleaseHeads, KeepsTaken;
    match op
    case Malloc(k, ints) => TakeInv(s.m, s.avail, s.heads, s.list, k, ints);
    case Free(h) => FreeList(s, h);
    case Write(h, x, v) => H.StoreInv(s.m, s.avail, s.heads, s.list, h, x, v);
  }

  /** The operation is not about block g. */
  predicate Spares(op: Op, g: int) {
    match op
    case Malloc(_, _) => true
    case Free(h) => h != g
    case Write(h, _, _) => h != g
  }

  /** Block g is live in s' with the same words, tags and payload alike. */
  ghost predicate SameBlock(s: State, s': State, g: int) {
    && Live(s.m, s.heads, g) && Live(s'.m, s'.heads, g) && |s'.m| == |s.m| && End(s.m, g) <= |s.m|
    && (forall x :: g <= x < End(s.m, g) ==> s'.m[x] == s.m[x])
  }

  lemma SparedWords(s: State, s': State, ex: int, g: int)
    requires Ok(s) && Live(s.m, s.heads, g) && KeepsTaken(s.m, s'.m, s.heads, ex) && g != ex && s.heads <= s'.heads
    ensures SameBlock(s, s', g)
  {
    H.LiveRange(s.m, s.avail, s.heads, s.list, g);
    hide Inv;
    forall x | g <= x < End(s.m, g)
      ensures s'.m[x] == s.m[x]
    {
      assert InBlock(s.m, g, x);
    }
  }

  /** An operation about other blocks leaves a live block alone. */
  lemma StepSpares(s: State, op: Op, g: int)
    requires Ok(s) && Enabled(s, op) && Live(s.m, s.heads, g) && Spares(op, g)
    ensures SameBlock(s, Next(s, op), g)
  {
    hide Inv, Take, TakeList, Release, ReleaseHeads, KeepsTaken;
    var s' := Next(s, op);
    match op
    case Malloc(k, ints) =>
      TakeInv(s.m, s.avail, s.heads, s.list, k, ints);
      SparedWords(s, s', s.list[k], g);
    case Free(h) =>
      FreeList(s, h);
      H.LiveRange(s.m, s.avail, s.heads, s.list, g);
      H.LiveStays(s.m, s.avail, s.heads, s.list, h, s'.m, g);
    case Write(h, x, v) =>
      H.StoreInv(s.m, s.avail, s.heads, s.list, h, x, v);
      SparedWords(s, s', h, g);
  }

  ghost function Run(s: State, ops: seq<Op>): State
    requires Ok(s)
    decreases |ops|
  {
    if ops == [] then s
    else if !Enabled(s, ops[0]) then Run(s, ops[1..])
    else
      StepKeeps(s, ops[0]);
      Run(Next(s, ops[0]), ops[1..])
  }

  /** Every run keeps the heap in order: the tiling, the fence, the linked list of exactly the available blocks, and no two
      of them adjacent. */
  lemma {:induction false} RunKeeps(s: State, ops: seq<Op>)
    requires Ok(s)
    ensures Ok(Run(s, ops))
    decreases |ops|
  {
    hide Ok, Enabled, Next;
    if ops != [] {
      if Enabled(s, ops[0]) {
        StepKeeps(s, ops[0]);
        RunKeeps(Next(s, ops[0]), ops[1..]);
      } else {
        RunKeeps(s, ops[1..]);
      }
    }
  }

  lemma SameTrans(s: State, s1: State, s2: State, g: int)
    requires SameBlock(s, s1, g) && SameBlock(s1, s2, g)
    ensures SameBlock(s, s2, g)
  {
    hide Live;
    LiveTag(s.m, s.heads, g);
    assert s1.m[g] == s.m[g];
    assert End(s1.m, g) == End(s.m, g);
  }

  lemma LiveTag(m: seq<int>, heads: set<int>, g: int)
    requires Live(m, heads, g)
    ensures 0 < g < |m| && g < End(m, g)
  {
  }

  /** Over any run a block that is neither freed nor written keeps every word. */
  lemma {:induction false} RunSpares(s: State, ops: seq<Op>, g: int)
    requires Ok(s) && Live(s.m, s.heads, g) && forall i :: 0 <= i < |ops| ==> Spares(ops[i], g)
    ensures SameBlock(s, Run(s, ops), g)
    decreases |ops|
  {
    hide Inv, Enabled, Next, Live;
    if ops == [] {
      SameSelf(s, g);
    } else if Enabled(s, ops[0]) {
      StepKeeps(s, ops[0]);
      StepSpares(s, ops[0], g);
      RunSpares(Next(s, ops[0]), ops[1..], g);
      SameTrans(s, Next(s, ops[0]), Run(s, ops), g);
    } else {
      RunSpares(s, ops[1..], g);
    }
  }

  lemma SameSelf(s: State, g: int)
    requires Ok(s) && Live(s.m, s.heads, g)
    ensures SameBlock(s, s, g)
  {
    H.LiveRange(s.m, s.avail, s.heads, s.list, g);
  }
}
