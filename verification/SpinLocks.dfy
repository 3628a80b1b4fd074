/** kernel/atomic.h: SpinLock::lock and unlock on any number of cores and locks, one step per atomic access. */
module SpinLocks {
  import opened Basics

  /** A lock held by a core, with the interrupt state its own lock() saw. */
  datatype Held = Held(lock: int, saved: bool)

  datatype Pc =
    | Code                                     // between calls
    | Disable(lock: int)                       // lock(): about to disable interrupts
    | Exchange(lock: int, was: bool)           // about to exchange taken
    | SetWas(lock: int, was: bool)             // got the lock, about to store was
    | Retry(lock: int, was: bool)              // lost, about to restore and try again
    | GetWas(lock: int)                        // unlock(): about to read was
    | Release(lock: int, was: bool)            // about to clear taken
    | Restore(was: bool, saved: bool)          // about to restore interrupts

  /** off: interrupts disabled.  held: the locks held, innermost first. */
  datatype Core = Core(off: bool, pc: Pc, held: seq<Held>)

  datatype Lock = Lock(taken: bool, was: bool)

  /** `owner` records who holds each lock; no step looks at it. */
  datatype State = State(cores: map<int, Core>, locks: map<int, Lock>, owner: map<int, Opt<int>>)

  datatype Step = Toggle(core: int) | CallLock(core: int, lock: int) | CallUnlock(core: int) | Go(core: int)

  predicate Enabled(s: State, step: Step) {
    step.core in s.cores &&
      var c := s.cores[step.core];
      match step
      case Toggle(_) => c.pc.Code? && c.held == []
      case CallLock(_, l) => c.pc.Code? && l in s.locks
      case CallUnlock(_) => c.pc.Code? && c.held != []
      case Go(_) => !c.pc.Code? && (!c.pc.Restore? ==> c.pc.lock in s.locks)
  }

  /** Code outside locks may switch interrupts; unlock is called for the innermost lock held. */
  function Next(s: State, step: Step): State
    requires Enabled(s, step)
  {
    var c := s.cores[step.core];
    match step
    case Toggle(i) => s.(cores := s.cores[i := c.(off := !c.off)])
    case CallLock(i, l) => s.(cores := s.cores[i := c.(pc := Disable(l))])
    case CallUnlock(i) => s.(cores := s.cores[i := c.(pc := GetWas(c.held[0].lock))])
    case Go(i) => Advance(s, i)
  }

  function Advance(s: State, i: int): State
    requires Enabled(s, Go(i))
  {
    var c := s.cores[i];
    match c.pc
    case Disable(l) => s.(cores := s.cores[i := c.(off := true, pc := Exchange(l, c.off))])
    case Exchange(l, was) =>
      if s.locks[l].taken then s.(cores := s.cores[i := c.(pc := Retry(l, was))])
      else s.(cores := s.cores[i := c.(pc := SetWas(l, was))], locks := s.locks[l := s.locks[l].(taken := true)], owner := s.owner[l := Some(i)])
    case SetWas(l, was) =>
      s.(cores := s.cores[i := c.(pc := Code, held := [Held(l, was)] + c.held)], locks := s.locks[l := s.locks[l].(was := was)])
    case Retry(l, was) => s.(cores := s.cores[i := c.(pc := Disable(l), off := was && c.off)])
    case GetWas(l) => s.(cores := s.cores[i := c.(pc := Release(l, s.locks[l].was))])
    case Release(l, was) =>
      s.(cores := s.cores[i := c.(pc := Restore(was, if c.held != [] then c.held[0].saved else was), held := if c.held != [] then c.held[1..] else [])],
         locks := s.locks[l := s.locks[l].(taken := false)], owner := s.owner[l := None])
    case Restore(was, _) => s.(cores := s.cores[i := c.(pc := Code, off := was && c.off)])
    case Code => s
  }

  // ---------- the invariant ----------

  /** The core has taken lock l and not given it back. */
  predicate Owns(c: Core, l: int) {
    (exists k :: 0 <= k < |c.held| && c.held[k].lock == l) || (c.pc.SetWas? && c.pc.lock == l)
  }

  /** Interrupts are off from the exchange on, all but the outermost lock saw them off, and unlock works on the
      innermost lock. */
  predicate CoreOk(c: Core) {
    && (c.held != [] ==> c.off)
    && (c.pc.Exchange? || c.pc.SetWas? || c.pc.Retry? || c.pc.GetWas? || c.pc.Release? || c.pc.Restore? ==> c.off)
    && (forall k :: 0 <= k < |c.held| - 1 ==> c.held[k].saved)
    && (c.held != [] && (c.pc.Exchange? || c.pc.SetWas? || c.pc.Retry? || c.pc.Restore?) ==> c.pc.was)
    && (c.pc.GetWas? || c.pc.Release? ==> c.held != [] && c.held[0].lock == c.pc.lock)
    && (c.pc.Release? ==> c.pc.was == c.held[0].saved)
    && (c.pc.Restore? ==> c.pc.was == c.pc.saved)
    && (forall j, k :: 0 <= j < k < |c.held| ==> c.held[j].lock != c.held[k].lock)
    && (c.pc.SetWas? ==> forall k :: 0 <= k < |c.held| ==> c.held[k].lock != c.pc.lock)
  }

  /** The shared `was` of a lock is what its holder saved. */
  predicate WasOk(s: State, c: Core) {
    forall k :: 0 <= k < |c.held| ==> c.held[k].lock in s.locks && s.locks[c.held[k].lock].was == c.held[k].saved
  }

  ghost predicate OwnerOk(s: State, i: int, l: int) {
    i in s.cores && l in s.locks && l in s.owner ==> (Owns(s.cores[i], l) <==> s.owner[l] == Some(i))
  }

  ghost predicate Inv(s: State) {
    && s.owner.Keys == s.locks.Keys
    && (forall l {:trigger s.locks[l]} :: l in s.locks ==> (s.locks[l].taken <==> s.owner[l].Some?))
    && (forall i {:trigger s.cores[i]} :: i in s.cores ==> CoreOk(s.cores[i]) && WasOk(s, s.cores[i]))
    && (forall i {:trigger s.cores[i]} :: i in s.cores && !s.cores[i].pc.Code? && !s.cores[i].pc.Restore? ==> s.cores[i].pc.lock in s.locks)
    && (forall i, l {:trigger OwnerOk(s, i, l)} :: OwnerOk(s, i, l))
    && (forall l {:trigger s.owner[l]} :: l in s.owner && s.owner[l].Some? ==> s.owner[l].value in s.cores)
  }

  // ---------- what it says ----------

  /** At most one core holds a lock, and it runs with interrupts disabled. */
  lemma OneHolder(s: State, i: int, j: int, l: int)
    requires Inv(s) && i in s.cores && j in s.cores && l in s.locks && Owns(s.cores[i], l)
    ensures s.cores[i].off && s.locks[l].taken
    ensures Owns(s.cores[j], l) ==> i == j
  {
    assert OwnerOk(s, i, l) && OwnerOk(s, j, l);
  }

  /** The last step of unlock leaves interrupts as the lock() it belongs to found them. */
  lemma UnlockRestores(s: State, i: int)
    requires Inv(s) && i in s.cores && s.cores[i].pc.Restore?
    ensures Next(s, Go(i)).cores[i].off == s.cores[i].pc.saved
  {
    assert CoreOk(s.cores[i]);
  }

  // ---------- every step keeps it ----------

  lemma LocalKeeps(s: State, s': State, i: int, c: Core)
    requires Inv(s) && i in s.cores && s' == s.(cores := s.cores[i := c]) && c.held == s.cores[i].held
    requires CoreOk(c) && !s.cores[i].pc.SetWas? && !c.pc.SetWas? && (!c.pc.Code? && !c.pc.Restore? ==> c.pc.lock in s.locks)
    ensures Inv(s')
  {
    forall j, l {:trigger OwnerOk(s', j, l)}
      ensures OwnerOk(s', j, l)
    {
      assert OwnerOk(s, j, l);
    }
    forall j {:trigger s'.cores[j]} | j in s'.cores
      ensures CoreOk(s'.cores[j]) && WasOk(s', s'.cores[j])
      ensures !s'.cores[j].pc.Code? && !s'.cores[j].pc.Restore? ==> s'.cores[j].pc.lock in s'.locks
    {
      assert WasOk(s, s.cores[j]);
    }
  }

  lemma OutsideKeeps(s: State, step: Step)
    requires Inv(s) && Enabled(s, step) && !step.Go?
    ensures Inv(Next(s, step))
  {
    var i := step.core;
    var s' := Next(s, step);
    assert CoreOk(s.cores[i]) && WasOk(s, s.cores[i]);
    LocalKeeps(s, s', i, s'.cores[i]);
  }

  /** Steps of lock and unlock that touch only the core. */
  lemma QuietKeeps(s: State, i: int)
    requires Inv(s) && Enabled(s, Go(i))
    requires s.cores[i].pc.Disable? || s.cores[i].pc.Retry? || s.cores[i].pc.GetWas? || s.cores[i].pc.Restore? ||
             (s.cores[i].pc.Exchange? && s.locks[s.cores[i].pc.lock].taken)
    ensures Inv(Advance(s, i))
  {
    var s' := Advance(s, i);
    assert CoreOk(s.cores[i]) && WasOk(s, s.cores[i]);
    LocalKeeps(s, s', i, s'.cores[i]);
  }

  lemma ExchangeKeeps(s: State, i: int)
    requires Inv(s) && Enabled(s, Go(i)) && s.cores[i].pc.Exchange? && !s.locks[s.cores[i].pc.lock].taken
    ensures Inv(Advance(s, i))
  {
    var s', l := Advance(s, i), s.cores[i].pc.lock;
    assert CoreOk(s.cores[i]) && OwnerOk(s, i, l);
    assert forall k :: 0 <= k < |s.cores[i].held| ==> s.cores[i].held[k].lock != l;
    forall j, m {:trigger OwnerOk(s', j, m)}
      ensures OwnerOk(s', j, m)
    {
      assert OwnerOk(s, j, m);
    }
    forall j {:trigger s'.cores[j]} | j in s'.cores
      ensures CoreOk(s'.cores[j]) && WasOk(s', s'.cores[j])
    {
      assert CoreOk(s.cores[j]) && WasOk(s, s.cores[j]);
    }
  }

  lemma SetWasKeeps(s: State, i: int)
    requires Inv(s) && Enabled(s, Go(i)) && s.cores[i].pc.SetWas?
    ensures Inv(Advance(s, i))
  {
    var s', l, c := Advance(s, i), s.cores[i].pc.lock, s.cores[i];
    var c' := s'.cores[i];
    assert CoreOk(c) && OwnerOk(s, i, l);
    PushOk(c, c');
    forall j, m {:trigger OwnerOk(s', j, m)}
      ensures OwnerOk(s', j, m)
    {
      assert OwnerOk(s, j, m);
      if j == i { PushOwns(c, c', m); }
    }
    forall j {:trigger s'.cores[j]} | j in s'.cores
      ensures CoreOk(s'.cores[j]) && WasOk(s', s'.cores[j])
    {
      assert CoreOk(s.cores[j]) && WasOk(s, s.cores[j]) && OwnerOk(s, j, l);
      if j == i {
        assert forall k :: 0 < k < |c'.held| ==> c'.held[k] == c.held[k - 1];
      }
    }
  }

  lemma PushOk(c: Core, c': Core)
    requires CoreOk(c) && c.pc.SetWas? && c' == c.(pc := Code, held := [Held(c.pc.lock, c.pc.was)] + c.held)
    ensures CoreOk(c')
  {
    assert forall k :: 0 < k < |c'.held| ==> c'.held[k] == c.held[k - 1];
  }

  lemma PushOwns(c: Core, c': Core, m: int)
    requires c.pc.SetWas? && c' == c.(pc := Code, held := [Held(c.pc.lock, c.pc.was)] + c.held)
    ensures Owns(c', m) <==> Owns(c, m)
  {
    assert c'.held[0].lock == c.pc.lock;
    if k :| 0 <= k < |c.held| && c.held[k].lock == m { assert c'.held[k + 1].lock == m; }
    if k :| 0 <= k < |c'.held| && c'.held[k].lock == m { assert k > 0 ==> c.held[k - 1].lock == m; }
  }

  lemma ReleaseKeeps(s: State, i: int)
    requires Inv(s) && Enabled(s, Go(i)) && s.cores[i].pc.Release?
    ensures Inv(Advance(s, i))
  {
    var s', l, c := Advance(s, i), s.cores[i].pc.lock, s.cores[i];
    var c' := s'.cores[i];
    assert CoreOk(c);
    PopOk(c, c');
    assert c.held[0].lock == l;
    assert OwnerOk(s, i, l);
    forall j, m {:trigger OwnerOk(s', j, m)}
      ensures OwnerOk(s', j, m)
    {
      assert OwnerOk(s, j, m);
      if j == i { PopOwns(c, c', m); }
    }
    forall j {:trigger s'.cores[j]} | j in s'.cores
      ensures CoreOk(s'.cores[j]) && WasOk(s', s'.cores[j])
    {
      assert CoreOk(s.cores[j]) && WasOk(s, s.cores[j]);
    }
  }

  lemma PopOk(c: Core, c': Core)
    requires CoreOk(c) && c.pc.Release? && c' == c.(pc := Restore(c.pc.was, c.held[0].saved), held := c.held[1..])
    ensures CoreOk(c')
  {
    assert forall k :: 0 <= k < |c'.held| ==> c'.held[k] == c.held[k + 1];
  }

  lemma PopOwns(c: Core, c': Core, m: int)
    requires CoreOk(c) && c.pc.Release? && c' == c.(pc := Restore(c.pc.was, c.held[0].saved), held := c.held[1..])
    ensures Owns(c', m) <==> Owns(c, m) && m != c.pc.lock
  {
    if k :| 0 <= k < |c.held| && c.held[k].lock == m { assert k > 0 ==> c'.held[k - 1].lock == m; }
    if k :| 0 <= k < |c'.held| && c'.held[k].lock == m { assert c.held[k + 1].lock == m; }
  }

  lemma StepKeeps(s: State, step: Step)
    requires Inv(s) && Enabled(s, step)
    ensures Inv(Next(s, step))
  {
    hide Inv, Advance;
    if !step.Go? {
      OutsideKeeps(s, step);
    } else {
      var i := step.core;
      match s.cores[i].pc
      case SetWas(_, _) => SetWasKeeps(s, i);
      case Release(_, _) => ReleaseKeeps(s, i);
      case Exchange(l, _) =>
        if s.locks[l].taken { QuietKeeps(s, i); } else { ExchangeKeeps(s, i); }
      case _ => QuietKeeps(s, i);
    }
  }

  // ---------- every interleaving ----------

  ghost function Run(s: State, steps: seq<Step>): State
    decreases |steps|
  {
    if steps == [] then s
    else if !Enabled(s, steps[0]) then Run(s, steps[1..])
    else Run(Next(s, steps[0]), steps[1..])
  }

  lemma {:induction false} RunKeeps(s: State, steps: seq<Step>)
    requires Inv(s)
    ensures Inv(Run(s, steps))
    decreases |steps|
  {
    hide Inv, Enabled, Next;
    if steps != [] {
      if Enabled(s, steps[0]) {
        StepKeeps(s, steps[0]);
        RunKeeps(Next(s, steps[0]), steps[1..]);
      } else {
        RunKeeps(s, steps[1..]);
      }
    }
  }

  // ---------- the interrupt state of a caller ----------

  /** How the code of core i last had its interrupts: as it set them itself, or as they were when it called lock()
      with nothing held. */
  function Wanted(s: State, step: Step, i: int, want: bool): bool
    requires Enabled(s, step)
  {
    if step.core != i then want
    else match step
      case Toggle(_) => !s.cores[i].off
      case CallLock(_, _) => if s.cores[i].held == [] then s.cores[i].off else want
      case _ => want
  }

  ghost function WantedAfter(s: State, steps: seq<Step>, i: int, want: bool): bool
    decreases |steps|
  {
    if steps == [] then want
    else if !Enabled(s, steps[0]) then WantedAfter(s, steps[1..], i, want)
    else WantedAfter(Next(s, steps[0]), steps[1..], i, Wanted(s, steps[0], i, want))
  }

  /** Wherever the core is in lock or unlock, the state to come back to is still there. */
  predicate Remembers(c: Core, want: bool) {
    if c.held != [] then c.held[|c.held| - 1].saved == want
    else match c.pc
      case Code => c.off == want
      case Disable(_) => c.off == want
      case Exchange(_, was) => was == want
      case SetWas(_, was) => was == want
      case Retry(_, was) => was == want
      case Restore(was, _) => was == want
      case _ => true
  }

  lemma StepRemembers(s: State, step: Step, i: int, want: bool)
    requires Inv(s) && Enabled(s, step) && i in s.cores && Remembers(s.cores[i], want)
    ensures i in Next(s, step).cores && Remembers(Next(s, step).cores[i], Wanted(s, step, i, want))
  {
    hide OwnerOk, WasOk, Owns;
    assert CoreOk(s.cores[i]);
    if step == Go(i) && s.cores[i].pc.GetWas? { assert WasOk(s, s.cores[i]); }
  }

  lemma {:induction false} RunRemembers(s: State, steps: seq<Step>, i: int, want: bool)
    requires Inv(s) && i in s.cores && Remembers(s.cores[i], want)
    ensures i in Run(s, steps).cores && Remembers(Run(s, steps).cores[i], WantedAfter(s, steps, i, want))
    decreases |steps|
  {
    hide Inv, Enabled, Next, Remembers, Wanted;
    if steps != [] {
      if Enabled(s, steps[0]) {
        StepRemembers(s, steps[0], i, want);
        StepKeeps(s, steps[0]);
        RunRemembers(Next(s, steps[0]), steps[1..], i, Wanted(s, steps[0], i, want));
      } else {
        RunRemembers(s, steps[1..], i, want);
      }
    }
  }

  /** However often its lock() had to try again and whatever the other cores did: a core that is back in its code with
      nothing held has its interrupts as it last had them before its outermost lock(). */
  lemma InterruptsComeBack(s: State, steps: seq<Step>, i: int)
    requires Fresh(s) && i in s.cores
    ensures var s' := Run(s, steps);
            && i in s'.cores
            && (s'.cores[i].pc.Code? && s'.cores[i].held == [] ==> s'.cores[i].off == WantedAfter(s, steps, i, s.cores[i].off))
  {
    hide Run, WantedAfter;
    FreshInv(s);
    RunRemembers(s, steps, i, s.cores[i].off);
  }

  // ---------- what a call comes to ----------

  /** The locks the core holds when the call it is in has returned, innermost first. */
  function Locks(held: seq<Held>): seq<int> {
    seq(|held|, k requires 0 <= k < |held| => held[k].lock)
  }

  function Pending(c: Core): seq<int> {
    match c.pc
    case Code => Locks(c.held)
    case Restore(_, _) => Locks(c.held)
    case GetWas(_) => if c.held == [] then [] else Locks(c.held)[1..]
    case Release(_, _) => if c.held == [] then [] else Locks(c.held)[1..]
    case Disable(l) => [l] + Locks(c.held)
    case Exchange(l, _) => [l] + Locks(c.held)
    case SetWas(l, _) => [l] + Locks(c.held)
    case Retry(l, _) => [l] + Locks(c.held)
  }

  /** lock(l) comes to one more lock, unlock() to one fewer, and nothing but the core's own calls changes that. */
  lemma CallsNest(s: State, step: Step, i: int)
    requires Inv(s) && Enabled(s, step) && i in s.cores
    ensures i in Next(s, step).cores
    ensures Pending(Next(s, step).cores[i]) ==
            if step.core != i then Pending(s.cores[i])
            else match step
              case CallLock(_, l) => [l] + Pending(s.cores[i])
              case CallUnlock(_) => Pending(s.cores[i])[1..]
              case _ => Pending(s.cores[i])
  {
    hide OwnerOk, WasOk, Owns;
    var c := s.cores[i];
    assert CoreOk(c);
    var c' := Next(s, step).cores[i];
    if step == Go(i) && c.pc.SetWas? {
      assert Locks(c'.held) == [c.pc.lock] + Locks(c.held);
    } else if step == Go(i) && c.pc.Release? {
      assert Locks(c'.held) == Locks(c.held)[1..];
    }
  }

  /** How far a core has come: an exchange succeeds exactly on a free lock, and every other access leads to the next. */
  lemma GoAdvances(s: State, i: int)
    requires Enabled(s, Go(i))
    ensures var k, k', l, l' := s.cores[i].pc, Next(s, Go(i)).cores[i].pc, s.locks, Next(s, Go(i)).locks;
            && (k.Disable? ==> k' == Exchange(k.lock, s.cores[i].off) && Next(s, Go(i)).cores[i].off)
            && (k.Exchange? ==> k' == (if l[k.lock].taken then Retry(k.lock, k.was) else SetWas(k.lock, k.was)) && l'[k.lock].taken)
            && (k.SetWas? ==> k'.Code? && l'[k.lock].was == k.was)
            && (k.Retry? ==> k' == Disable(k.lock) && (Next(s, Go(i)).cores[i].off <==> k.was && s.cores[i].off))
            && (k.GetWas? ==> k' == Release(k.lock, l[k.lock].was))
            && (k.Release? ==> k'.Restore? && k'.was == k.was && !l'[k.lock].taken)
            && (k.Restore? ==> k'.Code? && (Next(s, Go(i)).cores[i].off <==> k.was && s.cores[i].off))
            && l'.Keys == l.Keys && (forall m :: m in l && (k.Restore? || m != k.lock) ==> l'[m] == l[m])
  {
  }

  // ---------- from the start ----------

  /** All locks free, all cores outside, interrupts in any state. */
  ghost predicate Fresh(s: State) {
    && s.owner.Keys == s.locks.Keys
    && (forall l :: l in s.locks ==> !s.locks[l].taken && s.owner[l].None?)
    && (forall i :: i in s.cores ==> s.cores[i].pc.Code? && s.cores[i].held == [])
  }

  lemma FreshInv(s: State)
    requires Fresh(s)
    ensures Inv(s)
  {
    forall a, b {:trigger OwnerOk(s, a, b)}
      ensures OwnerOk(s, a, b)
    {
    }
  }

  /** After any interleaving: mutual exclusion, interrupts off while holding, and a core that is back in its code with
      nothing held has its interrupts as they were before its outermost lock(). */
  lemma RunIsSafe(s: State, steps: seq<Step>, i: int, j: int, l: int)
    requires Fresh(s) && i in s.cores
    ensures var s' := Run(s, steps);
            && i in s'.cores
            && (s'.cores[i].pc.Code? && s'.cores[i].held == [] ==> s'.cores[i].off == WantedAfter(s, steps, i, s.cores[i].off))
            && (j in s'.cores && l in s'.locks ==>
                  && (Owns(s'.cores[i], l) ==> s'.cores[i].off)
                  && (Owns(s'.cores[i], l) && Owns(s'.cores[j], l) ==> i == j)
                  && (s'.cores[i].pc.Restore? ==> Next(s', Go(i)).cores[i].off == s'.cores[i].pc.saved))
  {
    hide Run, WantedAfter;
    FreshInv(s);
    RunKeeps(s, steps);
    InterruptsComeBack(s, steps, i);
    hide Inv, Owns, Next;
    var s' := Run(s, steps);
    if j in s'.cores && l in s'.locks {
      if Owns(s'.cores[i], l) { OneHolder(s', i, j, l); }
      if s'.cores[i].pc.Restore? { UnlockRestores(s', i); }
    }
  }
}
