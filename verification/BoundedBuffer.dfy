/** The bounded buffer of kernel/bb.h: any number of producers and consumers, in any interleaving of the
    sections of its two semaphores and of its spin lock. */
module BoundedBuffer {
  import opened Basics
  import opened Semaphores
  import opened Counting

  datatype Pc<V> =
    | Rest
    | PutStart(v: V)   // about to try n_empty
    | PutMiss(v: V)    // tried in vain, about to check again in the helper
    | PutWait(v: V)
    | PutGot(v: V)     // owns an empty slot
    | PutStored        // value stored, about to raise n_full
    | GetStart
    | GetMiss
    | GetWait
    | GetGot           // owns a full slot
    | GetTaken(v: V)   // value taken, about to raise n_empty

  /** `puts` and `gets` record the values in the order of the spin lock. */
  datatype State<V> = State(n: nat, data: seq<V>, front: nat, back: nat, empty: Sem<int>, full: Sem<int>,
                            pcs: map<int, Pc<V>>, puts: seq<V>, gets: seq<V>)

  datatype Step<V> =
    | BeginPut(t: int, v: V) | PutTry(t: int) | PutRecheck(t: int) | Store(t: int) | RaiseFull(t: int)
    | BeginGet(t: int) | GetTry(t: int) | GetRecheck(t: int) | Take(t: int) | RaiseEmpty(t: int)

  predicate Enabled<V>(s: State<V>, step: Step<V>) {
    step.t in s.pcs &&
      var pc := s.pcs[step.t];
      match step
      case BeginPut(_, _) => pc.Rest?
      case PutTry(_) => pc.PutStart?
      case PutRecheck(_) => pc.PutMiss?
      case Store(_) => pc.PutGot?
      case RaiseFull(_) => pc.PutStored?
      case BeginGet(_) => pc.Rest?
      case GetTry(_) => pc.GetStart?
      case GetRecheck(_) => pc.GetMiss?
      case Take(_) => pc.GetGot?
      case RaiseEmpty(_) => pc.GetTaken?
  }

  /** The ring indices are in range where a section uses them. */
  predicate Ready<V>(s: State<V>, step: Step<V>) {
    (step.Store? ==> s.back < |s.data| && s.n > 0) && (step.Take? ==> s.front < |s.data| && s.n > 0)
  }

  /** The state of a waiter that is handed a token. */
  function Handed<V>(pc: Pc<V>): Pc<V> {
    if pc.PutWait? then PutGot(pc.v) else GetGot
  }

  function Next<V>(s: State<V>, step: Step<V>): State<V>
    requires Enabled(s, step) && Ready(s, step)
  {
    var t := step.t;
    match step
    case BeginPut(_, v) => s.(pcs := s.pcs[t := PutStart(v)])
    case PutTry(_) =>
      var (sem, got) := AfterTry(s.empty);
      s.(empty := sem, pcs := s.pcs[t := if got then PutGot(s.pcs[t].v) else PutMiss(s.pcs[t].v)])
    case PutRecheck(_) =>
      var (sem, got) := AfterRecheck(s.empty, t);
      s.(empty := sem, pcs := s.pcs[t := if got then PutGot(s.pcs[t].v) else PutWait(s.pcs[t].v)])
    case Store(_) =>
      var v := s.pcs[t].v;
      s.(data := s.data[s.back := v], back := (s.back + 1) % s.n, puts := s.puts + [v], pcs := s.pcs[t := PutStored])
    case RaiseFull(_) =>
      var (sem, w) := AfterUp(s.full);
      s.(full := sem, pcs := Wake(s.pcs[t := Rest], w))
    case BeginGet(_) => s.(pcs := s.pcs[t := GetStart])
    case GetTry(_) =>
      var (sem, got) := AfterTry(s.full);
      s.(full := sem, pcs := s.pcs[t := if got then GetGot else GetMiss])
    case GetRecheck(_) =>
      var (sem, got) := AfterRecheck(s.full, t);
      s.(full := sem, pcs := s.pcs[t := if got then GetGot else GetWait])
    case Take(_) =>
      var v := s.data[s.front];
      s.(front := (s.front + 1) % s.n, gets := s.gets + [v], pcs := s.pcs[t := GetTaken(v)])
    case RaiseEmpty(_) =>
      var (sem, w) := AfterUp(s.empty);
      s.(empty := sem, pcs := Wake(s.pcs[t := Rest], w))
  }

  function Wake<V>(pcs: map<int, Pc<V>>, w: Opt<int>): map<int, Pc<V>> {
    if w.Some? && w.value in pcs then pcs[w.value := Handed(pcs[w.value])] else pcs
  }

  // ---------- the invariant ----------

  /** Threads in flight with an empty slot, and with a full one. */
  ghost function Filling<V(!new)>(s: State<V>): nat { Count(s.pcs, (k: Pc<V>) => k.PutGot?) }
  ghost function Stored<V(!new)>(s: State<V>): nat { Count(s.pcs, (k: Pc<V>) => k.PutStored?) }
  ghost function Emptying<V(!new)>(s: State<V>): nat { Count(s.pcs, (k: Pc<V>) => k.GetGot?) }
  ghost function Taken<V(!new)>(s: State<V>): nat { Count(s.pcs, (k: Pc<V>) => k.GetTaken?) }

  /** The two semaphores and the operations in flight account for exactly n slots. */
  ghost predicate Slots<V(!new)>(s: State<V>) {
    s.empty.n + Filling(s) + Stored(s) + s.full.n + Emptying(s) + Taken(s) == s.n
  }

  /** The values stored and not yet taken. */
  ghost predicate Values<V(!new)>(s: State<V>) {
    |s.puts| == |s.gets| + Stored(s) + s.full.n + Emptying(s)
  }

  /** Unread values are where the indices say; the values taken are the first ones put. */
  ghost predicate Ring<V(!new)>(s: State<V>) {
    && |s.data| == s.n && |s.gets| <= |s.puts| && s.gets == s.puts[..|s.gets|]
    && |s.puts| - |s.gets| <= s.n
    && (s.n > 0 ==> s.front < s.n && s.back == At(s.front, |s.puts| - |s.gets|, s.n))
    && (forall j {:trigger s.data[At(s.front, j, s.n)]} :: 0 <= j < |s.puts| - |s.gets| ==> s.data[At(s.front, j, s.n)] == s.puts[|s.gets| + j])
  }

  /** The slot j places after i, for j up to n. */
  function At(i: nat, j: nat, n: nat): (r: nat)
    ensures i < n && j <= n ==> r < n
  {
    if i + j < n then i + j else i + j - n
  }

  ghost predicate Waiters<V(!new)>(s: State<V>) {
    && WaitOk(s.empty) && Queued(s.empty.waiting, s.pcs, (k: Pc<V>) => k.PutWait?)
    && WaitOk(s.full) && Queued(s.full.waiting, s.pcs, (k: Pc<V>) => k.GetWait?)
  }

  ghost predicate Inv<V(!new)>(s: State<V>) {
    Slots(s) && Values(s) && Ring(s) && Waiters(s)
  }

  // ---------- counting one step ----------

  lemma Counts<V(!new)>(s: State<V>, s': State<V>, t: int, k: Pc<V>)
    requires t in s.pcs && s'.pcs == s.pcs[t := k]
    ensures Filling(s') == Filling(s) - One(s.pcs[t].PutGot?) + One(k.PutGot?)
    ensures Stored(s') == Stored(s) - One(s.pcs[t].PutStored?) + One(k.PutStored?)
    ensures Emptying(s') == Emptying(s) - One(s.pcs[t].GetGot?) + One(k.GetGot?)
    ensures Taken(s') == Taken(s) - One(s.pcs[t].GetTaken?) + One(k.GetTaken?)
  {
    CountUpdate(s.pcs, (x: Pc<V>) => x.PutGot?, t, k);
    CountUpdate(s.pcs, (x: Pc<V>) => x.PutStored?, t, k);
    CountUpdate(s.pcs, (x: Pc<V>) => x.GetGot?, t, k);
    CountUpdate(s.pcs, (x: Pc<V>) => x.GetTaken?, t, k);
  }

  /** A slot is owned by whoever is filling it, so the ring is not full; likewise it is not empty for a taker. */
  lemma Room<V(!new)>(s: State<V>, t: int)
    requires Inv(s) && t in s.pcs
    ensures s.pcs[t].PutGot? ==> |s.puts| - |s.gets| < s.n
    ensures s.pcs[t].GetGot? ==> |s.gets| < |s.puts| <= |s.gets| + s.n
  {
    if s.pcs[t].PutGot? { CountAt(s.pcs, (x: Pc<V>) => x.PutGot?, t); }
    if s.pcs[t].GetGot? { CountAt(s.pcs, (x: Pc<V>) => x.GetGot?, t); }
  }

  lemma NextIndex(i: nat, n: nat)
    requires i < n
    ensures (i + 1) % n == At(i, 1, n)
  {
  }

  // ---------- the waiting threads ----------

  /** A thread that neither waits nor comes to wait. */
  lemma WaitersStay<V(!new)>(s: State<V>, s': State<V>, t: int, k: Pc<V>)
    requires Waiters(s) && t in s.pcs && s'.pcs == s.pcs[t := k]
    requires !s.pcs[t].PutWait? && !s.pcs[t].GetWait? && !k.PutWait? && !k.GetWait?
    requires s'.empty.waiting == s.empty.waiting && s'.full.waiting == s.full.waiting && WaitOk(s'.empty) && WaitOk(s'.full)
    ensures Waiters(s')
  {
    QueuedStay(s.empty.waiting, s.pcs, (x: Pc<V>) => x.PutWait?, t, k);
    QueuedStay(s.full.waiting, s.pcs, (x: Pc<V>) => x.GetWait?, t, k);
  }

  lemma PutJoins<V(!new)>(s: State<V>, s': State<V>, t: int, v: V)
    requires Waiters(s) && t in s.pcs && s'.pcs == s.pcs[t := PutWait(v)] && s.pcs[t].PutMiss? && s.empty.n == 0
    requires s'.empty == s.empty.(waiting := s.empty.waiting + [t]) && s'.full == s.full
    ensures Waiters(s')
  {
    QueuedJoin(s.empty.waiting, s.pcs, (x: Pc<V>) => x.PutWait?, t, PutWait(v));
    QueuedStay(s.full.waiting, s.pcs, (x: Pc<V>) => x.GetWait?, t, PutWait(v));
  }

  lemma GetJoins<V(!new)>(s: State<V>, s': State<V>, t: int)
    requires Waiters(s) && t in s.pcs && s'.pcs == s.pcs[t := GetWait] && s.pcs[t].GetMiss? && s.full.n == 0
    requires s'.full == s.full.(waiting := s.full.waiting + [t]) && s'.empty == s.empty
    ensures Waiters(s')
  {
    QueuedJoin(s.full.waiting, s.pcs, (x: Pc<V>) => x.GetWait?, t, GetWait);
    QueuedStay(s.empty.waiting, s.pcs, (x: Pc<V>) => x.PutWait?, t, GetWait);
  }

  lemma GetWoken<V(!new)>(s: State<V>, s': State<V>)
    requires Waiters(s) && s.full.waiting != [] && s'.empty == s.empty && s'.full == AfterUp(s.full).0
    requires s'.pcs == Wake(s.pcs, AfterUp(s.full).1)
    ensures s.full.waiting[0] in s.pcs && s.pcs[s.full.waiting[0]].GetWait? && Waiters(s')
    ensures s'.pcs == s.pcs[s.full.waiting[0] := GetGot]
  {
    QueuedLeave(s.full.waiting, s.pcs, (x: Pc<V>) => x.GetWait?, GetGot);
    QueuedStay(s.empty.waiting, s.pcs, (x: Pc<V>) => x.PutWait?, s.full.waiting[0], GetGot);
  }

  lemma PutWoken<V(!new)>(s: State<V>, s': State<V>)
    requires Waiters(s) && s.empty.waiting != [] && s'.full == s.full && s'.empty == AfterUp(s.empty).0
    requires s'.pcs == Wake(s.pcs, AfterUp(s.empty).1)
    ensures s.empty.waiting[0] in s.pcs && s.pcs[s.empty.waiting[0]].PutWait? && Waiters(s')
    ensures s'.pcs == s.pcs[s.empty.waiting[0] := PutGot(s.pcs[s.empty.waiting[0]].v)]
  {
    var w := s.empty.waiting[0];
    assert w in s.empty.waiting;
    var v := s.pcs[w].v;
    QueuedLeave(s.empty.waiting, s.pcs, (x: Pc<V>) => x.PutWait?, PutGot(v));
    QueuedStay(s.full.waiting, s.pcs, (x: Pc<V>) => x.GetWait?, w, PutGot(v));
  }

  // ---------- every step keeps the invariant ----------

  lemma BeginKeeps<V(!new)>(s: State<V>, step: Step<V>)
    requires Inv(s) && Enabled(s, step) && (step.BeginPut? || step.BeginGet?)
    ensures Inv(Next(s, step))
  {
    hide Waiters, Filling, Stored, Emptying, Taken;
    var s' := Next(s, step);
    Counts(s, s', step.t, s'.pcs[step.t]);
    WaitsAreOk(s);
    WaitersStay(s, s', step.t, s'.pcs[step.t]);
  }

  lemma WaitsAreOk<V(!new)>(s: State<V>)
    requires Waiters(s)
    ensures WaitOk(s.empty) && WaitOk(s.full)
  {
  }

  lemma TryKeeps<V(!new)>(s: State<V>, step: Step<V>)
    requires Inv(s) && Enabled(s, step) && (step.PutTry? || step.GetTry?)
    ensures Inv(Next(s, step))
  {
    hide Waiters, Filling, Stored, Emptying, Taken;
    var s' := Next(s, step);
    Counts(s, s', step.t, s'.pcs[step.t]);
    WaitsAreOk(s);
    WaitersStay(s, s', step.t, s'.pcs[step.t]);
  }

  lemma RecheckKeeps<V(!new)>(s: State<V>, step: Step<V>)
    requires Inv(s) && Enabled(s, step) && (step.PutRecheck? || step.GetRecheck?)
    ensures Inv(Next(s, step))
  {
    hide Waiters, Filling, Stored, Emptying, Taken;
    var s', t := Next(s, step), step.t;
    Counts(s, s', t, s'.pcs[t]);
    WaitsAreOk(s);
    if step.PutRecheck? && s.empty.n == 0 {
      PutJoins(s, s', t, s.pcs[t].v);
    } else if step.GetRecheck? && s.full.n == 0 {
      GetJoins(s, s', t);
    } else {
      WaitersStay(s, s', t, s'.pcs[t]);
    }
  }

  /** Storing at `back` touches no unread slot, and the new value is the last unread one. */
  lemma StoreRing<V(!new)>(s: State<V>, s': State<V>, v: V)
    requires Ring(s) && s.n > 0 && |s.puts| - |s.gets| < s.n && s.back < |s.data|
    requires s' == s.(data := s.data[s.back := v], back := (s.back + 1) % s.n, puts := s.puts + [v], pcs := s'.pcs)
    ensures Ring(s')
    ensures forall j {:trigger At(s.front, j, s.n)} :: 0 <= j < |s.puts| - |s.gets| ==> At(s.front, j, s.n) != s.back
  {
    NextIndex(s.back, s.n);
    var m := |s.puts| - |s.gets|;
    forall j {:trigger s'.data[At(s'.front, j, s'.n)]} | 0 <= j < m + 1
      ensures s'.data[At(s'.front, j, s'.n)] == s'.puts[|s'.gets| + j]
    {
      assert j < m ==> At(s.front, j, s.n) != s.back && s.data[At(s.front, j, s.n)] == s.puts[|s.gets| + j];
    }
  }

  lemma StoreKeeps<V(!new)>(s: State<V>, t: int)
    requires Inv(s) && Enabled(s, Store(t))
    ensures Ready(s, Step.Store(t)) && Inv(Next(s, Step.Store(t)))
  {
    Room(s, t);
    hide Waiters, Filling, Stored, Emptying, Taken, Ring;
    RingBounds(s);
    var s' := Next(s, Step.Store(t));
    Counts(s, s', t, PutStored);
    WaitsAreOk(s);
    WaitersStay(s, s', t, PutStored);
    StoreRing(s, s', s.pcs[t].v);
  }

  lemma RingBounds<V(!new)>(s: State<V>)
    requires Ring(s)
    ensures |s.data| == s.n && |s.gets| <= |s.puts| && |s.puts| - |s.gets| <= s.n
    ensures s.n > 0 ==> s.front < s.n && s.back < s.n
  {
  }

  lemma TakeRing<V(!new)>(s: State<V>, s': State<V>)
    requires Ring(s) && s.n > 0 && |s.gets| < |s.puts| && s.front < |s.data|
    requires s' == s.(front := (s.front + 1) % s.n, gets := s.gets + [s.data[s.front]], pcs := s'.pcs)
    ensures Ring(s')
  {
    NextIndex(s.front, s.n);
    assert s.data[At(s.front, 0, s.n)] == s.puts[|s.gets|];
    var m := |s.puts| - |s.gets|;
    forall j {:trigger s'.data[At(s'.front, j, s'.n)]} | 0 <= j < m - 1
      ensures s'.data[At(s'.front, j, s'.n)] == s'.puts[|s'.gets| + j]
    {
      assert s.data[At(s.front, j + 1, s.n)] == s.puts[|s.gets| + (j + 1)];
    }
  }

  lemma TakeKeeps<V(!new)>(s: State<V>, t: int)
    requires Inv(s) && Enabled(s, Take(t))
    ensures Ready(s, Step.Take(t)) && Inv(Next(s, Step.Take(t)))
  {
    Room(s, t);
    hide Waiters, Filling, Stored, Emptying, Taken, Ring;
    RingBounds(s);
    var s' := Next(s, Step.Take(t));
    Counts(s, s', t, GetTaken(s.data[s.front]));
    WaitsAreOk(s);
    WaitersStay(s, s', t, GetTaken(s.data[s.front]));
    TakeRing(s, s');
  }

  lemma SameRing<V(!new)>(s: State<V>, s': State<V>)
    requires Ring(s) && s' == s.(pcs := s'.pcs, empty := s'.empty, full := s'.full)
    ensures Ring(s')
  {
  }

  lemma RaiseFullKeeps<V(!new)>(s: State<V>, t: int)
    requires Inv(s) && Enabled(s, RaiseFull(t))
    ensures Inv(Next(s, Step.RaiseFull(t)))
  {
    hide Waiters, Filling, Stored, Emptying, Taken, Ring;
    var s' := Next(s, Step.RaiseFull(t));
    var s1 := s.(pcs := s.pcs[t := Rest]);
    Counts(s, s1, t, Rest);
    WaitsAreOk(s);
    WaitersStay(s, s1, t, Rest);
    SameRing(s, s');
    if s.full.waiting == [] {
      Counts(s, s', t, Rest);
      WaitersStay(s, s', t, Rest);
    } else {
      GetWoken(s1, s');
      Counts(s1, s', s.full.waiting[0], GetGot);
    }
  }

  lemma RaiseEmptyKeeps<V(!new)>(s: State<V>, t: int)
    requires Inv(s) && Enabled(s, RaiseEmpty(t))
    ensures Inv(Next(s, Step.RaiseEmpty(t)))
  {
    hide Waiters, Filling, Stored, Emptying, Taken, Ring;
    var s' := Next(s, Step.RaiseEmpty(t));
    var s1 := s.(pcs := s.pcs[t := Rest]);
    Counts(s, s1, t, Rest);
    WaitsAreOk(s);
    WaitersStay(s, s1, t, Rest);
    SameRing(s, s');
    if s.empty.waiting == [] {
      Counts(s, s', t, Rest);
      WaitersStay(s, s', t, Rest);
    } else {
      PutWoken(s1, s');
      Counts(s1, s', s.empty.waiting[0], s'.pcs[s.empty.waiting[0]]);
    }
  }

  lemma StepKeeps<V(!new)>(s: State<V>, step: Step<V>)
    requires Inv(s) && Enabled(s, step)
    ensures Ready(s, step) && Inv(Next(s, step))
  {
    hide Inv, Next;
    match step
    case BeginPut(_, _) => BeginKeeps(s, step);
    case BeginGet(_) => BeginKeeps(s, step);
    case PutTry(_) => TryKeeps(s, step);
    case GetTry(_) => TryKeeps(s, step);
    case PutRecheck(_) => RecheckKeeps(s, step);
    case GetRecheck(_) => RecheckKeeps(s, step);
    case Store(t) => StoreKeeps(s, t);
    case Take(t) => TakeKeeps(s, t);
    case RaiseFull(t) => RaiseFullKeeps(s, t);
    case RaiseEmpty(t) => RaiseEmptyKeeps(s, t);
  }

  // ---------- what a step does ----------

  /** The waiter that a step hands its token to. */
  function Woken<V>(s: State<V>, step: Step<V>): seq<int> {
    if step.RaiseFull? then s.full.waiting[..One(s.full.waiting != [])]
    else if step.RaiseEmpty? then s.empty.waiting[..One(s.empty.waiting != [])]
    else []
  }

  /** How the thread of a step goes on: the value put is the one put was called with, the value got is the oldest unread. */
  function Continues<V>(s: State<V>, step: Step<V>): Pc<V>
    requires Enabled(s, step) && (step.Take? ==> |s.gets| < |s.puts|)
  {
    var k := s.pcs[step.t];
    match step
    case BeginPut(_, v) => PutStart(v)
    case PutTry(_) => if s.empty.n > 0 then PutGot(k.v) else PutMiss(k.v)
    case PutRecheck(_) => if s.empty.n > 0 then PutGot(k.v) else PutWait(k.v)
    case Store(_) => PutStored
    case RaiseFull(_) => Rest
    case BeginGet(_) => GetStart
    case GetTry(_) => if s.full.n > 0 then GetGot else GetMiss
    case GetRecheck(_) => if s.full.n > 0 then GetGot else GetWait
    case Take(_) => GetTaken(s.puts[|s.gets|])
    case RaiseEmpty(_) => Rest
  }

  /** Every thread after a step: its own thread goes on, a waiter handed a token owns its slot with the value it has
      been waiting to put, nobody else is touched. */
  ghost predicate GoesOn<V(!new)>(s: State<V>, s': State<V>, step: Step<V>)
    requires Enabled(s, step) && (step.Take? ==> |s.gets| < |s.puts|)
  {
    && s'.pcs.Keys == s.pcs.Keys && s'.pcs[step.t] == Continues(s, step)
    && (forall u {:trigger s'.pcs[u]} :: u in s.pcs && u != step.t ==>
          if u in Woken(s, step) then IsHanded(s.pcs[u], s'.pcs[u]) else s'.pcs[u] == s.pcs[u])
  }

  predicate IsHanded<V(==)>(k: Pc<V>, k': Pc<V>) {
    (k.GetWait? && k'.GetGot?) || (k.PutWait? && k' == PutGot(k.v))
  }

  /** The semaphores, the buffer and the logs after a step. */
  ghost predicate Moves<V(!new)>(s: State<V>, s': State<V>, step: Step<V>)
    requires Enabled(s, step) && (step.Take? ==> |s.gets| < |s.puts|)
  {
    var t := step.t;
    && s'.n == s.n
    && s'.puts == s.puts + (if step.Store? then [s.pcs[t].v] else [])
    && s'.gets == s.gets + (if step.Take? then [s.puts[|s.gets|]] else [])
    && s'.empty.n + One((step.PutTry? || step.PutRecheck?) && s.empty.n > 0) == s.empty.n + One(step.RaiseEmpty? && s.empty.waiting == [])
    && s'.full.n + One((step.GetTry? || step.GetRecheck?) && s.full.n > 0) == s.full.n + One(step.RaiseFull? && s.full.waiting == [])
    && s.empty.waiting + (if step.PutRecheck? && s.empty.n == 0 then [t] else []) == (if step.RaiseEmpty? then Woken(s, step) else []) + s'.empty.waiting
    && s.full.waiting + (if step.GetRecheck? && s.full.n == 0 then [t] else []) == (if step.RaiseFull? then Woken(s, step) else []) + s'.full.waiting
  }

  /** A thread that has a full slot takes the oldest unread value, and that is the value it returns. */
  lemma OldestUnread<V(!new)>(s: State<V>, t: int)
    requires Inv(s) && Enabled(s, Take(t))
    ensures Ready(s, Step.Take(t)) && |s.gets| < |s.puts| && s.data[s.front] == s.puts[|s.gets|]
  {
    Room(s, t);
    assert s.data[At(s.front, 0, s.n)] == s.puts[|s.gets|];
  }

  lemma RaiseFullDoes<V(!new)>(s: State<V>, t: int)
    requires Inv(s) && Enabled(s, RaiseFull(t))
    ensures var step := Step.RaiseFull(t); GoesOn(s, Next(s, step), step) && Moves(s, Next(s, step), step)
  {
    hide Slots, Values, Ring;
    if s.full.waiting != [] { assert s.full.waiting[0] in s.full.waiting; }
  }

  lemma RaiseEmptyDoes<V(!new)>(s: State<V>, t: int)
    requires Inv(s) && Enabled(s, RaiseEmpty(t))
    ensures var step := Step.RaiseEmpty(t); GoesOn(s, Next(s, step), step) && Moves(s, Next(s, step), step)
  {
    hide Slots, Values, Ring;
    if s.empty.waiting != [] { assert s.empty.waiting[0] in s.empty.waiting; }
  }

  lemma SectionDoes<V(!new)>(s: State<V>, step: Step<V>)
    requires Enabled(s, step) && Ready(s, step) && !step.RaiseFull? && !step.RaiseEmpty?
    requires step.Take? ==> |s.gets| < |s.puts| && s.data[s.front] == s.puts[|s.gets|]
    ensures GoesOn(s, Next(s, step), step) && Moves(s, Next(s, step), step)
  {
  }

  lemma StepDoes<V(!new)>(s: State<V>, step: Step<V>)
    requires Inv(s) && Enabled(s, step)
    ensures Ready(s, step) && (step.Take? ==> |s.gets| < |s.puts|)
    ensures GoesOn(s, Next(s, step), step) && Moves(s, Next(s, step), step)
  {
    hide Inv, Next, Moves, GoesOn;
    StepKeeps(s, step);
    match step
    case RaiseFull(t) => RaiseFullDoes(s, t);
    case RaiseEmpty(t) => RaiseEmptyDoes(s, t);
    case Take(t) => OldestUnread(s, t); SectionDoes(s, step);
    case _ => SectionDoes(s, step);
  }

  // ---------- runs ----------

  ghost function Run<V(!new)>(s: State<V>, steps: seq<Step<V>>): State<V>
    requires Inv(s)
    decreases |steps|
  {
    if steps == [] then s
    else if !Enabled(s, steps[0]) then Run(s, steps[1..])
    else
      StepKeeps(s, steps[0]);
      Run(Next(s, steps[0]), steps[1..])
  }

  lemma {:induction false} RunKeeps<V(!new)>(s: State<V>, steps: seq<Step<V>>)
    requires Inv(s)
    ensures Inv(Run(s, steps))
    decreases |steps|
  {
    hide Inv, Enabled, Next;
    if steps != [] {
      if Enabled(s, steps[0]) {
        StepKeeps(s, steps[0]);
        RunKeeps(Next(s, steps[0]), steps[1..]);
      } else {
        RunKeeps(s, steps[1..]);
      }
    }
  }

  /** A new buffer with its threads at rest. */
  function Fresh<V>(n: nat, data: seq<V>, pcs: map<int, Pc<V>>): State<V> {
    State(n, data, 0, 0, Sem(n, []), Sem(0, []), pcs, [], [])
  }

  lemma FreshInv<V(!new)>(n: nat, data: seq<V>, pcs: map<int, Pc<V>>)
    requires |data| == n && forall t :: t in pcs ==> pcs[t].Rest?
    ensures Inv(Fresh(n, data, pcs))
  {
    CountSome(pcs, (x: Pc<V>) => x.PutGot?);
    CountSome(pcs, (x: Pc<V>) => x.PutStored?);
    CountSome(pcs, (x: Pc<V>) => x.GetGot?);
    CountSome(pcs, (x: Pc<V>) => x.GetTaken?);
  }

  /** The values that put sections stored in a run, and those that get sections came away with, in order. */
  ghost function Stores<V(!new)>(s: State<V>, steps: seq<Step<V>>): seq<V>
    requires Inv(s)
    decreases |steps|
  {
    if steps == [] then []
    else if !Enabled(s, steps[0]) then Stores(s, steps[1..])
    else
      StepKeeps(s, steps[0]);
      (if steps[0].Store? then [s.pcs[steps[0].t].v] else []) + Stores(Next(s, steps[0]), steps[1..])
  }

  ghost function Results<V(!new)>(s: State<V>, steps: seq<Step<V>>): seq<V>
    requires Inv(s)
    decreases |steps|
  {
    if steps == [] then []
    else if !Enabled(s, steps[0]) then Results(s, steps[1..])
    else
      StepKeeps(s, steps[0]);
      StepDoes(s, steps[0]);
      var s' := Next(s, steps[0]);
      (if steps[0].Take? then [s'.pcs[steps[0].t].v] else []) + Results(s', steps[1..])
  }

  lemma {:induction false} LogsAreHistory<V(!new)>(s: State<V>, steps: seq<Step<V>>)
    requires Inv(s)
    ensures Run(s, steps).puts == s.puts + Stores(s, steps) && Run(s, steps).gets == s.gets + Results(s, steps)
    ensures Run(s, steps).n == s.n
    decreases |steps|
  {
    hide Inv, Enabled, Next;
    if steps != [] {
      if Enabled(s, steps[0]) {
        StepKeeps(s, steps[0]);
        StepDoes(s, steps[0]);
        LogsAreHistory(Next(s, steps[0]), steps[1..]);
      } else {
        LogsAreHistory(s, steps[1..]);
      }
    }
  }

  /** After any interleaving: the values the gets came away with are the first values the puts stored, in order, and at
      most n are unread. */
  lemma FirstInFirstOut<V(!new)>(n: nat, data: seq<V>, pcs: map<int, Pc<V>>, steps: seq<Step<V>>)
    requires |data| == n && forall t :: t in pcs ==> pcs[t].Rest?
    ensures Inv(Fresh(n, data, pcs))
    ensures var s0 := Fresh(n, data, pcs);
            && Results(s0, steps) <= Stores(s0, steps) && |Stores(s0, steps)| - |Results(s0, steps)| <= n
            && Run(s0, steps).gets == Results(s0, steps) && Run(s0, steps).puts == Stores(s0, steps)
            && Slots(Run(s0, steps))
  {
    hide Run, Stores, Results;
    FreshInv(n, data, pcs);
    RunKeeps(Fresh(n, data, pcs), steps);
    LogsAreHistory(Fresh(n, data, pcs), steps);
    assert [] + Results(Fresh(n, data, pcs), steps) == Results(Fresh(n, data, pcs), steps);
    assert [] + Stores(Fresh(n, data, pcs), steps) == Stores(Fresh(n, data, pcs), steps);
  }

  /** Producers and consumers never all wait for each other. */
  lemma NotAllWait<V(!new)>(s: State<V>, p: int, c: int)
    requires Inv(s) && s.n > 0 && p in s.pcs && s.pcs[p].PutWait? && c in s.pcs && s.pcs[c].GetWait?
    ensures exists t :: t in s.pcs && (s.pcs[t].PutGot? || s.pcs[t].PutStored? || s.pcs[t].GetGot? || s.pcs[t].GetTaken?)
  {
    assert p in s.empty.waiting && c in s.full.waiting;
    CountSome(s.pcs, (x: Pc<V>) => x.PutGot?);
    CountSome(s.pcs, (x: Pc<V>) => x.PutStored?);
    CountSome(s.pcs, (x: Pc<V>) => x.GetGot?);
    CountSome(s.pcs, (x: Pc<V>) => x.GetTaken?);
  }

  /** The sections under the spin lock, on the array itself. */
  class Buffer<V> {
    const data: array<V>
    var front: nat
    var back: nat

    ghost predicate Valid()
      reads this
    {
      front < data.Length && back < data.Length
    }

    constructor (data: array<V>)
      requires data.Length > 0
      ensures Valid() && this.data == data && front == 0 && back == 0
    {
      this.data := data;
      front, back := 0, 0;
    }

    method Put(v: V)
      requires Valid()
      modifies this`back, data
      ensures Valid() && data[..] == old(data[..])[old(back) := v] && back == At(old(back), 1, data.Length)
    {
      data[back] := v;
      NextIndex(back, data.Length);
      back := (back + 1) % data.Length;
    }

    method Get() returns (v: V)
      requires Valid()
      modifies this`front
      ensures Valid() && v == old(data[front]) && front == At(old(front), 1, data.Length)
    {
      v := data[front];
      NextIndex(front, data.Length);
      front := (front + 1) % data.Length;
    }
  }
}
