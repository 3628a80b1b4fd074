/** kernel/barrier.h with exactly as many participants as it was made for. */
module Barriers {
  import opened Basics
  import opened Semaphores
  import opened Counting

  datatype Pc =
    | Before          // has not called sync
    | LastUp          // brought the counter to 0, about to raise
    | Start           // about to lower
    | Miss
    | Wait
    | PassUp          // has the token, about to raise it again
    | Left

  datatype State = State(n: int, ready: Sem<int>, pcs: map<int, Pc>)

  datatype Step = Arrive(t: int) | Try(t: int) | Recheck(t: int) | Raise(t: int)

  predicate Enabled(s: State, step: Step) {
    step.t in s.pcs &&
      match step
      case Arrive(t) => s.pcs[t].Before?
      case Try(t) => s.pcs[t].Start?
      case Recheck(t) => s.pcs[t].Miss?
      case Raise(t) => s.pcs[t].LastUp? || s.pcs[t].PassUp?
  }

  function Wake(pcs: map<int, Pc>, w: Opt<int>): map<int, Pc> {
    if w.Some? then pcs[w.value := PassUp] else pcs
  }

  function Next(s: State, step: Step): State
    requires Enabled(s, step)
  {
    match step
    case Arrive(t) => s.(n := s.n - 1, pcs := s.pcs[t := if s.n - 1 == 0 then LastUp else Start])
    case Try(t) => var (sem, got) := AfterTry(s.ready); s.(ready := sem, pcs := s.pcs[t := if got then PassUp else Miss])
    case Recheck(t) => var (sem, got) := AfterRecheck(s.ready, t); s.(ready := sem, pcs := s.pcs[t := if got then PassUp else Wait])
    case Raise(t) => var (sem, w) := AfterUp(s.ready); s.(ready := sem, pcs := Wake(s.pcs[t := Left], w))
  }

  predicate IsBefore(k: Pc) { k.Before? }
  predicate IsRaising(k: Pc) { k.LastUp? || k.PassUp? }
  predicate IsLeft(k: Pc) { k.Left? }
  predicate IsWait(k: Pc) { k.Wait? }

  /** The counter counts those who have not arrived.  Until everybody has there is no token and nobody is out;
      from then on there is exactly one token, either free or in the hands of one thread. */
  ghost predicate Inv(s: State) {
    && s.n == Count(s.pcs, IsBefore)
    && s.ready.n + Count(s.pcs, IsRaising) == (if s.n == 0 && s.pcs != map[] then 1 else 0)
    && (s.n > 0 ==> Count(s.pcs, IsLeft) == 0)
    && WaitOk(s.ready) && Queued(s.ready.waiting, s.pcs, IsWait)
  }

  lemma Counts(pcs: map<int, Pc>, t: int, k: Pc)
    requires t in pcs
    ensures Count(pcs[t := k], IsBefore) == Count(pcs, IsBefore) - One(IsBefore(pcs[t])) + One(IsBefore(k))
    ensures Count(pcs[t := k], IsRaising) == Count(pcs, IsRaising) - One(IsRaising(pcs[t])) + One(IsRaising(k))
    ensures Count(pcs[t := k], IsLeft) == Count(pcs, IsLeft) - One(IsLeft(pcs[t])) + One(IsLeft(k))
  {
    CountUpdate(pcs, IsBefore, t, k);
    CountUpdate(pcs, IsRaising, t, k);
    CountUpdate(pcs, IsLeft, t, k);
  }

  lemma StepKeeps(s: State, step: Step)
    requires Inv(s) && Enabled(s, step)
    ensures Inv(Next(s, step))
  {
    hide Count;
    var s', t := Next(s, step), step.t;
    if step.Raise? {
      RaiseKeeps(s, t);
    } else {
      Counts(s.pcs, t, s'.pcs[t]);
      if step.Arrive? { CountAt(s.pcs, IsBefore, t); }
      if step.Recheck? && s.ready.n == 0 {
        QueuedJoin(s.ready.waiting, s.pcs, IsWait, t, Wait);
      } else {
        QueuedStay(s.ready.waiting, s.pcs, IsWait, t, s'.pcs[t]);
      }
    }
  }

  lemma RaiseKeeps(s: State, t: int)
    requires Inv(s) && Enabled(s, Raise(t))
    ensures Inv(Next(s, Raise(t)))
  {
    hide Count;
    CountAt(s.pcs, IsRaising, t);
    var pcs1 := s.pcs[t := Left];
    Counts(s.pcs, t, Left);
    QueuedStay(s.ready.waiting, s.pcs, IsWait, t, Left);
    if s.ready.waiting != [] {
      var w := s.ready.waiting[0];
      QueuedLeave(s.ready.waiting, pcs1, IsWait, PassUp);
      Counts(pcs1, w, PassUp);
    }
  }

  // ---------- what a step does ----------

  /** The waiter that a step hands the token to. */
  function Woken(s: State, step: Step): seq<int> {
    if step.Raise? then s.ready.waiting[..One(s.ready.waiting != [])] else []
  }

  function Continues(s: State, step: Step): Pc {
    match step
    case Arrive(_) => if s.n == 1 then LastUp else Start
    case Try(_) => if s.ready.n > 0 then PassUp else Miss
    case Recheck(_) => if s.ready.n > 0 then PassUp else Wait
    case Raise(_) => Left
  }

  /** The thread of a step goes on, a waiter handed the token has to pass it on, nobody else is touched; only an
      arrival counts down, and tokens are added and taken one at a time. */
  lemma StepDoes(s: State, step: Step)
    requires Inv(s) && Enabled(s, step)
    ensures var s', t := Next(s, step), step.t;
            && s'.pcs.Keys == s.pcs.Keys && s'.pcs[t] == Continues(s, step)
            && (forall u :: u in s.pcs && u != t ==> s'.pcs[u] == if u in Woken(s, step) then PassUp else s.pcs[u])
            && s'.n + One(step.Arrive?) == s.n
            && s'.ready.n + One((step.Try? || step.Recheck?) && s.ready.n > 0) == s.ready.n + One(step.Raise? && s.ready.waiting == [])
            && s.ready.waiting + (if step.Recheck? && s.ready.n == 0 then [t] else []) == Woken(s, step) + s'.ready.waiting
  {
    hide Count;
    if step.t in s.ready.waiting { QueuedMember(s.ready.waiting, s.pcs, IsWait, step.t); }
    if s.ready.waiting != [] { QueuedMember(s.ready.waiting, s.pcs, IsWait, s.ready.waiting[0]); }
  }

  /** The barrier for exactly the threads of pcs, none of which has called sync. */
  lemma FreshInv(pcs: map<int, Pc>)
    requires pcs != map[] && forall t :: t in pcs ==> pcs[t].Before?
    ensures Inv(State(|pcs|, Sem(0, []), pcs))
  {
    CountSome(pcs, IsRaising);
    CountSome(pcs, IsLeft);
    CountAll(pcs, IsBefore);
  }

  ghost function Run(s: State, steps: seq<Step>): State
    decreases |steps|
  {
    if steps == [] then s
    else if !Enabled(s, steps[0]) then Run(s, steps[1..])
    else Run(Next(s, steps[0]), steps[1..])
  }

  lemma {:induction false} RunKeeps(s: State, steps: seq<Step>)
    requires Inv(s)
    ensures Inv(Run(s, steps)) && Run(s, steps).pcs.Keys == s.pcs.Keys
    decreases |steps|
  {
    if steps != [] {
      if Enabled(s, steps[0]) {
        StepKeeps(s, steps[0]);
        SameThreads(s, steps[0]);
        RunKeeps(Next(s, steps[0]), steps[1..]);
      } else {
        RunKeeps(s, steps[1..]);
      }
    }
  }

  lemma SameThreads(s: State, step: Step)
    requires Inv(s) && Enabled(s, step)
    ensures Next(s, step).pcs.Keys == s.pcs.Keys
  {
    if step.Raise? && s.ready.waiting != [] {
      QueuedStay(s.ready.waiting, s.pcs, IsWait, step.t, Left);
      QueuedLeave(s.ready.waiting, s.pcs[step.t := Left], IsWait, PassUp);
    }
  }

  /** In every interleaving of n threads: whoever has left proves that everybody has arrived, at most one token
      exists, and once all have arrived there is exactly one, free or held by a thread that will raise it. */
  lemma NobodyLeavesEarly(pcs: map<int, Pc>, steps: seq<Step>, t: int, u: int)
    requires pcs != map[] && (forall x :: x in pcs ==> pcs[x].Before?) && t in pcs && u in pcs
    ensures var s := Run(State(|pcs|, Sem(0, []), pcs), steps);
            && t in s.pcs && u in s.pcs
            && (s.pcs[t].Left? ==> !s.pcs[u].Before?)
            && s.ready.n + Count(s.pcs, IsRaising) <= 1
            && ((forall x :: x in s.pcs ==> !s.pcs[x].Before?) ==> s.ready.n + Count(s.pcs, IsRaising) == 1)
            && (s.pcs[u].Wait? && (forall x :: x in s.pcs ==> !s.pcs[x].Before?) ==> exists x :: x in s.pcs && IsRaising(s.pcs[x]))
  {
    hide Run, Count;
    FreshInv(pcs);
    RunKeeps(State(|pcs|, Sem(0, []), pcs), steps);
    var s := Run(State(|pcs|, Sem(0, []), pcs), steps);
    assert t in s.pcs.Keys && u in s.pcs.Keys;
    CountSome(s.pcs, IsBefore);
    CountSome(s.pcs, IsLeft);
    CountSome(s.pcs, IsRaising);
    assert s.pcs[u].Wait? ==> u in s.ready.waiting;
  }
}
