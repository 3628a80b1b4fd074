/** kernel/promise.h: one set, any number of gets. */
module Promises {
  import opened Basics
  import opened Semaphores
  import opened Counting

  datatype Pc<V> =
    | Rest
    | Setting(v: V)     // about to write the value
    | Written           // value written, about to raise
    | Done
    | Start | Miss | Wait
    | Got               // has the token, about to raise it again
    | Reading           // raised, about to read the value
    | Returned(v: V)

  datatype State<V> = State(value: V, sem: Sem<int>, pcs: map<int, Pc<V>>)

  datatype Step<V> = Write(t: int) | Raise(t: int) | Begin(t: int) | Try(t: int) | Recheck(t: int) | Read(t: int)

  predicate Enabled<V>(s: State<V>, step: Step<V>) {
    step.t in s.pcs &&
      match step
      case Write(t) => s.pcs[t].Setting?
      case Raise(t) => s.pcs[t].Written? || s.pcs[t].Got?
      case Begin(t) => s.pcs[t].Rest?
      case Try(t) => s.pcs[t].Start?
      case Recheck(t) => s.pcs[t].Miss?
      case Read(t) => s.pcs[t].Reading?
  }

  function Wake<V>(pcs: map<int, Pc<V>>, w: Opt<int>): map<int, Pc<V>> {
    if w.Some? then pcs[w.value := Got] else pcs
  }

  function Next<V>(s: State<V>, step: Step<V>): State<V>
    requires Enabled(s, step)
  {
    match step
    case Write(t) => s.(value := s.pcs[t].v, pcs := s.pcs[t := Written])
    case Raise(t) =>
      var (sem, w) := AfterUp(s.sem);
      s.(sem := sem, pcs := Wake(s.pcs[t := if s.pcs[t].Written? then Done else Reading], w))
    case Begin(t) => s.(pcs := s.pcs[t := Start])
    case Try(t) => var (sem, got) := AfterTry(s.sem); s.(sem := sem, pcs := s.pcs[t := if got then Got else Miss])
    case Recheck(t) => var (sem, got) := AfterRecheck(s.sem, t); s.(sem := sem, pcs := s.pcs[t := if got then Got else Wait])
    case Read(t) => s.(pcs := s.pcs[t := Returned(s.value)])
  }

  predicate IsSetting<V>(k: Pc<V>) { k.Setting? }
  predicate IsToken<V>(k: Pc<V>) { k.Written? || k.Got? }
  predicate IsLate<V>(k: Pc<V>) { k.Got? || k.Reading? || k.Returned? || k.Done? }
  predicate IsWait<V>(k: Pc<V>) { k.Wait? }

  /** Until the value is written there is no token and nobody is past down; afterwards there is exactly one token,
      and everything returned is the value that was set. */
  ghost predicate Inv<V(!new)>(s: State<V>, v: V) {
    && Count(s.pcs, (k: Pc<V>) => IsSetting(k)) + s.sem.n + Count(s.pcs, (k: Pc<V>) => IsToken(k)) == 1
    && (Count(s.pcs, (k: Pc<V>) => IsSetting(k)) == 1 ==> Count(s.pcs, (k: Pc<V>) => IsLate(k)) == 0)
    && (Count(s.pcs, (k: Pc<V>) => IsSetting(k)) == 0 ==> s.value == v)
    && (forall t :: t in s.pcs && (s.pcs[t].Setting? || s.pcs[t].Returned?) ==> s.pcs[t].v == v)
    && WaitOk(s.sem) && Queued(s.sem.waiting, s.pcs, (k: Pc<V>) => IsWait(k))
  }

  lemma Counts<V(!new)>(pcs: map<int, Pc<V>>, t: int, k: Pc<V>)
    requires t in pcs
    ensures Count(pcs[t := k], (x: Pc<V>) => IsSetting(x)) == Count(pcs, (x: Pc<V>) => IsSetting(x)) - One(IsSetting(pcs[t])) + One(IsSetting(k))
    ensures Count(pcs[t := k], (x: Pc<V>) => IsToken(x)) == Count(pcs, (x: Pc<V>) => IsToken(x)) - One(IsToken(pcs[t])) + One(IsToken(k))
    ensures Count(pcs[t := k], (x: Pc<V>) => IsLate(x)) == Count(pcs, (x: Pc<V>) => IsLate(x)) - One(IsLate(pcs[t])) + One(IsLate(k))
  {
    CountUpdate(pcs, (x: Pc<V>) => IsSetting(x), t, k);
    CountUpdate(pcs, (x: Pc<V>) => IsToken(x), t, k);
    CountUpdate(pcs, (x: Pc<V>) => IsLate(x), t, k);
  }

  lemma StepKeeps<V(!new)>(s: State<V>, step: Step<V>, v: V)
    requires Inv(s, v) && Enabled(s, step)
    ensures Inv(Next(s, step), v)
  {
    hide Count;
    var s', t := Next(s, step), step.t;
    if step.Raise? {
      RaiseKeeps(s, t, v);
    } else {
      Counts(s.pcs, t, s'.pcs[t]);
      if step.Write? { CountAt(s.pcs, (x: Pc<V>) => IsSetting(x), t); }
      if step.Read? { CountAt(s.pcs, (x: Pc<V>) => IsLate(x), t); }
      if step.Recheck? && s.sem.n == 0 {
        QueuedJoin(s.sem.waiting, s.pcs, (x: Pc<V>) => IsWait(x), t, Wait);
      } else {
        QueuedStay(s.sem.waiting, s.pcs, (x: Pc<V>) => IsWait(x), t, s'.pcs[t]);
      }
    }
  }

  lemma RaiseKeeps<V(!new)>(s: State<V>, t: int, v: V)
    requires Inv(s, v) && Enabled(s, Step<V>.Raise(t))
    ensures Inv(Next(s, Step.Raise(t)), v)
  {
    hide Count;
    CountAt(s.pcs, (x: Pc<V>) => IsToken(x), t);
    var k := if s.pcs[t].Written? then Done else Reading;
    var pcs1 := s.pcs[t := k];
    Counts(s.pcs, t, k);
    QueuedStay(s.sem.waiting, s.pcs, (x: Pc<V>) => IsWait(x), t, k);
    if s.sem.waiting != [] {
      var w := s.sem.waiting[0];
      QueuedLeave(s.sem.waiting, pcs1, (x: Pc<V>) => IsWait(x), Got);
      Counts(pcs1, w, Got);
    }
  }

  // ---------- what a step does ----------

  /** The waiter that a step hands the token to. */
  function Woken<V>(s: State<V>, step: Step<V>): seq<int> {
    if step.Raise? then s.sem.waiting[..One(s.sem.waiting != [])] else []
  }

  function Continues<V>(s: State<V>, step: Step<V>): Pc<V>
    requires Enabled(s, step)
  {
    match step
    case Write(_) => Written
    case Raise(t) => if s.pcs[t].Written? then Done else Reading
    case Begin(_) => Start
    case Try(_) => if s.sem.n > 0 then Got else Miss
    case Recheck(_) => if s.sem.n > 0 then Got else Wait
    case Read(_) => Returned(s.value)
  }

  /** The thread of a step goes on, a waiter handed the token has to pass it on, nobody else is touched; only set writes
      the value, and tokens are added and taken one at a time. */
  lemma StepDoes<V(!new)>(s: State<V>, step: Step<V>, v: V)
    requires Inv(s, v) && Enabled(s, step)
    ensures var s', t := Next(s, step), step.t;
            && s'.pcs.Keys == s.pcs.Keys && s'.pcs[t] == Continues(s, step)
            && (forall u :: u in s.pcs && u != t ==> s'.pcs[u] == if u in Woken(s, step) then Got else s.pcs[u])
            && s'.value == (if step.Write? then v else s.value)
            && s'.sem.n + One((step.Try? || step.Recheck?) && s.sem.n > 0) == s.sem.n + One(step.Raise? && s.sem.waiting == [])
            && s.sem.waiting + (if step.Recheck? && s.sem.n == 0 then [t] else []) == Woken(s, step) + s'.sem.waiting
  {
    hide Count;
    if step.t in s.sem.waiting { QueuedMember(s.sem.waiting, s.pcs, (k: Pc<V>) => IsWait(k), step.t); }
    if s.sem.waiting != [] { QueuedMember(s.sem.waiting, s.pcs, (k: Pc<V>) => IsWait(k), s.sem.waiting[0]); }
  }

  ghost function Run<V(!new)>(s: State<V>, steps: seq<Step<V>>): State<V>
    decreases |steps|
  {
    if steps == [] then s
    else if !Enabled(s, steps[0]) then Run(s, steps[1..])
    else Run(Next(s, steps[0]), steps[1..])
  }

  lemma {:induction false} RunKeeps<V(!new)>(s: State<V>, steps: seq<Step<V>>, v: V)
    requires Inv(s, v)
    ensures Inv(Run(s, steps), v)
    decreases |steps|
  {
    hide Inv;
    if steps != [] {
      if Enabled(s, steps[0]) {
        StepKeeps(s, steps[0], v);
        RunKeeps(Next(s, steps[0]), steps[1..], v);
      } else {
        RunKeeps(s, steps[1..], v);
      }
    }
  }

  /** Thread `setter` is about to set v, everybody else is at rest. */
  ghost predicate Fresh<V(!new)>(s: State<V>, setter: int, v: V) {
    && s.sem == Sem(0, []) && setter in s.pcs && s.pcs[setter] == Setting(v)
    && (forall t :: t in s.pcs && t != setter ==> s.pcs[t].Rest?)
  }

  lemma FreshInv<V(!new)>(s: State<V>, setter: int, v: V)
    requires Fresh(s, setter, v)
    ensures Inv(s, v)
  {
    var rest := s.pcs[setter := Rest];
    CountSome(rest, (x: Pc<V>) => IsSetting(x));
    CountSome(rest, (x: Pc<V>) => IsToken(x));
    CountSome(rest, (x: Pc<V>) => IsLate(x));
    Counts(s.pcs, setter, Rest);
  }

  /** Whatever the interleaving, every get that returns has the value of the set; and once the value is set a waiting
      get has a token free or in the hands of a thread about to raise it. */
  lemma GetsTheValue<V(!new)>(s: State<V>, setter: int, v: V, steps: seq<Step<V>>, t: int)
    requires Fresh(s, setter, v)
    ensures var s' := Run(s, steps);
            && (t in s'.pcs && s'.pcs[t].Returned? ==> s'.pcs[t].v == v)
            && (t in s'.pcs && s'.pcs[t].Wait? ==> exists u :: u in s'.pcs && (IsSetting(s'.pcs[u]) || IsToken(s'.pcs[u])))
  {
    hide Run, Count;
    FreshInv(s, setter, v);
    RunKeeps(s, steps, v);
    var s' := Run(s, steps);
    CountSome(s'.pcs, (x: Pc<V>) => IsSetting(x));
    CountSome(s'.pcs, (x: Pc<V>) => IsToken(x));
    assert t in s'.pcs && s'.pcs[t].Wait? ==> t in s'.sem.waiting;
  }
}
