/** kernel/blocking_queue.h under any mix of add, remove and remove_all. */
module BlockingQueues {
  import opened Basics
  import opened Semaphores
  import opened Counting

  datatype Pc =
    | Rest
    | Added           // item queued, about to raise n
    | Start | Miss | Wait
    | Got             // has a token, about to look at the queue

  /** `added` and `taken` record the items in the order of the queue's lock. */
  datatype State = State(data: seq<int>, n: Sem<int>, pcs: map<int, Pc>, added: seq<int>, taken: seq<int>)

  datatype Step = Add(t: int, item: int) | Raise(t: int) | Begin(t: int) | Try(t: int) | Recheck(t: int) | Remove(t: int) | RemoveAll(t: int)

  predicate Enabled(s: State, step: Step) {
    step.t in s.pcs &&
      match step
      case Add(t, _) => s.pcs[t].Rest?
      case Raise(t) => s.pcs[t].Added?
      case Begin(t) => s.pcs[t].Rest?
      case Try(t) => s.pcs[t].Start?
      case Recheck(t) => s.pcs[t].Miss?
      case Remove(t) => s.pcs[t].Got?
      case RemoveAll(t) => s.pcs[t].Rest?
  }

  function Wake(pcs: map<int, Pc>, w: Opt<int>): map<int, Pc> {
    if w.Some? then pcs[w.value := Got] else pcs
  }

  /** A remover that finds the queue empty has used up its token and starts over. */
  function Next(s: State, step: Step): State
    requires Enabled(s, step)
  {
    match step
    case Add(t, item) => s.(data := s.data + [item], added := s.added + [item], pcs := s.pcs[t := Added])
    case Raise(t) => var (sem, w) := AfterUp(s.n); s.(n := sem, pcs := Wake(s.pcs[t := Rest], w))
    case Begin(t) => s.(pcs := s.pcs[t := Start])
    case Try(t) => var (sem, got) := AfterTry(s.n); s.(n := sem, pcs := s.pcs[t := if got then Got else Miss])
    case Recheck(t) => var (sem, got) := AfterRecheck(s.n, t); s.(n := sem, pcs := s.pcs[t := if got then Got else Wait])
    case Remove(t) =>
      if s.data == [] then s.(pcs := s.pcs[t := Start])
      else s.(data := s.data[1..], taken := s.taken + [s.data[0]], pcs := s.pcs[t := Rest])
    case RemoveAll(t) => s.(data := [], taken := s.taken + s.data)
  }

  predicate IsAdded(k: Pc) { k.Added? }
  predicate IsGot(k: Pc) { k.Got? }
  predicate IsWait(k: Pc) { k.Wait? }

  /** Items never exceed tokens plus adds in flight plus removers that have their token; items leave in the order
      they came, each once. */
  ghost predicate Inv(s: State) {
    && |s.data| <= s.n.n + Count(s.pcs, IsAdded) + Count(s.pcs, IsGot)
    && s.added == s.taken + s.data
    && WaitOk(s.n) && Queued(s.n.waiting, s.pcs, IsWait)
  }

  lemma Counts(pcs: map<int, Pc>, t: int, k: Pc)
    requires t in pcs
    ensures Count(pcs[t := k], IsAdded) == Count(pcs, IsAdded) - One(IsAdded(pcs[t])) + One(IsAdded(k))
    ensures Count(pcs[t := k], IsGot) == Count(pcs, IsGot) - One(IsGot(pcs[t])) + One(IsGot(k))
  {
    CountUpdate(pcs, IsAdded, t, k);
    CountUpdate(pcs, IsGot, t, k);
  }

  lemma RaiseKeeps(s: State, t: int)
    requires Inv(s) && Enabled(s, Raise(t))
    ensures Inv(Next(s, Raise(t)))
  {
    hide Count;
    var pcs1 := s.pcs[t := Rest];
    Counts(s.pcs, t, Rest);
    QueuedStay(s.n.waiting, s.pcs, IsWait, t, Rest);
    if s.n.waiting != [] {
      QueuedLeave(s.n.waiting, pcs1, IsWait, Got);
      Counts(pcs1, s.n.waiting[0], Got);
    }
  }

  lemma StepKeeps(s: State, step: Step)
    requires Inv(s) && Enabled(s, step)
    ensures Inv(Next(s, step))
  {
    hide Count;
    var s', t := Next(s, step), step.t;
    if step.Raise? {
      RaiseKeeps(s, t);
    } else if !step.RemoveAll? {
      Counts(s.pcs, t, s'.pcs[t]);
      if step.Recheck? && s.n.n == 0 {
        QueuedJoin(s.n.waiting, s.pcs, IsWait, t, Wait);
      } else {
        QueuedStay(s.n.waiting, s.pcs, IsWait, t, s'.pcs[t]);
      }
    }
  }

  // ---------- what a step does ----------

  /** The waiter that a step hands its token to. */
  function Woken(s: State, step: Step): seq<int> {
    if step.Raise? then s.n.waiting[..One(s.n.waiting != [])] else []
  }

  function Continues(s: State, step: Step): Pc {
    match step
    case Add(_, _) => Added
    case Raise(_) => Rest
    case Begin(_) => Start
    case Try(_) => if s.n.n > 0 then Got else Miss
    case Recheck(_) => if s.n.n > 0 then Got else Wait
    case Remove(_) => if s.data == [] then Start else Rest
    case RemoveAll(_) => Rest
  }

  /** The items that a step takes out: the oldest one, or all there are. */
  function Out(s: State, step: Step): seq<int> {
    if step.RemoveAll? then s.data else if step.Remove? then s.data[..One(s.data != [])] else []
  }

  /** The thread of a step goes on, a waiter handed a token looks at the queue, nobody else is touched; items come in at
      the end and go out at the front; tokens are added and taken one at a time. */
  lemma StepDoes(s: State, step: Step)
    requires Inv(s) && Enabled(s, step)
    ensures var s', t := Next(s, step), step.t;
            && s'.pcs.Keys == s.pcs.Keys && s'.pcs[t] == Continues(s, step)
            && (forall u :: u in s.pcs && u != t ==> s'.pcs[u] == if u in Woken(s, step) then Got else s.pcs[u])
            && s.data + (if step.Add? then [step.item] else []) == Out(s, step) + s'.data && s'.taken == s.taken + Out(s, step)
            && s'.added == s.added + (if step.Add? then [step.item] else [])
            && s'.n.n + One((step.Try? || step.Recheck?) && s.n.n > 0) == s.n.n + One(step.Raise? && s.n.waiting == [])
            && s.n.waiting + (if step.Recheck? && s.n.n == 0 then [t] else []) == Woken(s, step) + s'.n.waiting
  {
    hide Count;
    if step.t in s.n.waiting { QueuedMember(s.n.waiting, s.pcs, IsWait, step.t); }
    if s.n.waiting != [] { QueuedMember(s.n.waiting, s.pcs, IsWait, s.n.waiting[0]); }
  }

  ghost function Run(s: State, steps: seq<Step>): State
    decreases |steps|
  {
    if steps == [] then s
    else if !Enabled(s, steps[0]) then Run(s, steps[1..])
    else Run(Next(s, steps[0]), steps[1..])
  }

  lemma {:induction false} RunKeeps(s: State, steps: seq<Step>)
    requires Inv(s)
    ensures Inv(Run(s, steps))
    decreases |steps|
  {
    hide Inv;
    if steps != [] {
      if Enabled(s, steps[0]) {
        StepKeeps(s, steps[0]);
        RunKeeps(Next(s, steps[0]), steps[1..]);
      } else {
        RunKeeps(s, steps[1..]);
      }
    }
  }

  /** From an empty queue, under every interleaving: the items taken are the first ones added; and while a remover
      waits, every queued item is matched by an add still to raise n or a remover already holding a token. */
  lemma NothingStranded(pcs: map<int, Pc>, steps: seq<Step>, t: int)
    requires forall u :: u in pcs ==> pcs[u].Rest?
    ensures var s := Run(State([], Sem(0, []), pcs, [], []), steps);
            && s.taken <= s.added
            && (t in s.pcs && s.pcs[t].Wait? ==>
                  && |s.data| <= Count(s.pcs, IsAdded) + Count(s.pcs, IsGot)
                  && (s.data != [] ==> exists u :: u in s.pcs && (IsAdded(s.pcs[u]) || IsGot(s.pcs[u]))))
  {
    hide Run, Count;
    var s0 := State([], Sem(0, []), pcs, [], []);
    RunKeeps(s0, steps);
    var s := Run(s0, steps);
    CountSome(s.pcs, IsAdded);
    CountSome(s.pcs, IsGot);
    assert t in s.pcs && s.pcs[t].Wait? ==> t in s.n.waiting;
  }

  // ---------- kernel/blocking_lock.h ----------

  /** A lock is a semaphore with one token; whoever is inside unlocks. */
  datatype LockPc = Outside | Asking | Again | Asleep | Inside

  datatype Lock = Lock(sem: Sem<int>, pcs: map<int, LockPc>)

  datatype LockStep = Ask(t: int) | TryLock(t: int) | RecheckLock(t: int) | Unlock(t: int)

  predicate LockEnabled(s: Lock, step: LockStep) {
    step.t in s.pcs &&
      match step
      case Ask(t) => s.pcs[t].Outside?
      case TryLock(t) => s.pcs[t].Asking?
      case RecheckLock(t) => s.pcs[t].Again?
      case Unlock(t) => s.pcs[t].Inside?
  }

  function LockNext(s: Lock, step: LockStep): Lock
    requires LockEnabled(s, step)
  {
    match step
    case Ask(t) => s.(pcs := s.pcs[t := Asking])
    case TryLock(t) => var (sem, got) := AfterTry(s.sem); s.(sem := sem, pcs := s.pcs[t := if got then Inside else Again])
    case RecheckLock(t) => var (sem, got) := AfterRecheck(s.sem, t); s.(sem := sem, pcs := s.pcs[t := if got then Inside else Asleep])
    case Unlock(t) =>
      var (sem, w) := AfterUp(s.sem);
      var pcs := s.pcs[t := Outside];
      s.(sem := sem, pcs := if w.Some? then pcs[w.value := Inside] else pcs)
  }

  predicate IsInside(k: LockPc) { k.Inside? }
  predicate IsAsleep(k: LockPc) { k.Asleep? }

  ghost predicate LockInv(s: Lock) {
    s.sem.n + Count(s.pcs, IsInside) == 1 && WaitOk(s.sem) && Queued(s.sem.waiting, s.pcs, IsAsleep)
  }

  lemma LockStepKeeps(s: Lock, step: LockStep)
    requires LockInv(s) && LockEnabled(s, step)
    ensures LockInv(LockNext(s, step))
  {
    hide Count;
    var s', t := LockNext(s, step), step.t;
    if step.Unlock? {
      UnlockKeeps(s, t);
    } else {
      CountUpdate(s.pcs, IsInside, t, s'.pcs[t]);
      if step.RecheckLock? && s.sem.n == 0 {
        QueuedJoin(s.sem.waiting, s.pcs, IsAsleep, t, Asleep);
      } else {
        QueuedStay(s.sem.waiting, s.pcs, IsAsleep, t, s'.pcs[t]);
      }
    }
  }

  lemma UnlockKeeps(s: Lock, t: int)
    requires LockInv(s) && LockEnabled(s, Unlock(t))
    ensures LockInv(LockNext(s, Unlock(t)))
  {
    hide Count;
    CountUpdate(s.pcs, IsInside, t, Outside);
    QueuedStay(s.sem.waiting, s.pcs, IsAsleep, t, Outside);
    if s.sem.waiting != [] {
      var w, pcs1 := s.sem.waiting[0], s.pcs[t := Outside];
      QueuedLeave(s.sem.waiting, pcs1, IsAsleep, Inside);
      CountUpdate(pcs1, IsInside, w, Inside);
    }
  }

  function LockWoken(s: Lock, step: LockStep): seq<int> {
    if step.Unlock? then s.sem.waiting[..One(s.sem.waiting != [])] else []
  }

  /** Only a free lock is entered; unlock lets in the thread that has slept longest, or frees the lock. */
  lemma LockStepDoes(s: Lock, step: LockStep)
    requires LockInv(s) && LockEnabled(s, step)
    ensures var s', t := LockNext(s, step), step.t;
            && s'.pcs.Keys == s.pcs.Keys
            && s'.pcs[t] == (match step case Ask(_) => Asking
                                        case TryLock(_) => if s.sem.n > 0 then Inside else Again
                                        case RecheckLock(_) => if s.sem.n > 0 then Inside else Asleep
                                        case Unlock(_) => Outside)
            && (forall u :: u in s.pcs && u != t ==> s'.pcs[u] == if u in LockWoken(s, step) then Inside else s.pcs[u])
            && s'.sem.n + One((step.TryLock? || step.RecheckLock?) && s.sem.n > 0) == s.sem.n + One(step.Unlock? && s.sem.waiting == [])
            && s.sem.waiting + (if step.RecheckLock? && s.sem.n == 0 then [t] else []) == LockWoken(s, step) + s'.sem.waiting
  {
    hide Count;
    if step.t in s.sem.waiting { QueuedMember(s.sem.waiting, s.pcs, IsAsleep, step.t); }
    if s.sem.waiting != [] { QueuedMember(s.sem.waiting, s.pcs, IsAsleep, s.sem.waiting[0]); }
  }

  ghost function LockRun(s: Lock, steps: seq<LockStep>): Lock
    decreases |steps|
  {
    if steps == [] then s
    else if !LockEnabled(s, steps[0]) then LockRun(s, steps[1..])
    else LockRun(LockNext(s, steps[0]), steps[1..])
  }

  lemma {:induction false} LockRunKeeps(s: Lock, steps: seq<LockStep>)
    requires LockInv(s)
    ensures LockInv(LockRun(s, steps))
    decreases |steps|
  {
    hide LockInv;
    if steps != [] {
      if LockEnabled(s, steps[0]) {
        LockStepKeeps(s, steps[0]);
        LockRunKeeps(LockNext(s, steps[0]), steps[1..]);
      } else {
        LockRunKeeps(s, steps[1..]);
      }
    }
  }

  /** Mutual exclusion; and while a thread sleeps at the lock somebody is inside. */
  lemma OneInside(pcs: map<int, LockPc>, steps: seq<LockStep>, t: int, u: int)
    requires forall x :: x in pcs ==> pcs[x].Outside?
    ensures var s := LockRun(Lock(Sem(1, []), pcs), steps);
            && (t in s.pcs && u in s.pcs && s.pcs[t].Inside? && s.pcs[u].Inside? ==> t == u)
            && (t in s.pcs && s.pcs[t].Asleep? ==> exists x :: x in s.pcs && IsInside(s.pcs[x]))
  {
    hide LockRun;
    var s0 := Lock(Sem(1, []), pcs);
    CountSome(pcs, IsInside);
    LockRunKeeps(s0, steps);
    var s := LockRun(s0, steps);
    hide Count;
    CountSome(s.pcs, IsInside);
    if t in s.pcs && u in s.pcs && s.pcs[t].Inside? && s.pcs[u].Inside? && t != u {
      CountTwo(s.pcs, IsInside, t, u);
    }
    assert t in s.pcs && s.pcs[t].Asleep? ==> t in s.sem.waiting;
  }
}
