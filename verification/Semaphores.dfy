/** The counting semaphore of kernel/semaphore.h: three sections, each under the spin lock. */
module Semaphores {
  import opened Basics
  import opened Queues

  datatype Sem<T> = Sem(n: nat, waiting: seq<T>)

  /** The first half of down. */
  function AfterTry<T>(s: Sem<T>): (Sem<T>, bool) {
    if s.n > 0 then (s.(n := s.n - 1), true) else (s, false)
  }

  /** The second half of down, in the helper: check again, and only then join the queue. */
  function AfterRecheck<T>(s: Sem<T>, t: T): (Sem<T>, bool) {
    if s.n > 0 then (s.(n := s.n - 1), true) else (s.(waiting := s.waiting + [t]), false)
  }

  /** up: a waiting thread gets the token directly; without one the count goes up. */
  function AfterUp<T>(s: Sem<T>): (Sem<T>, Opt<T>) {
    if s.waiting != [] then (s.(waiting := s.waiting[1..]), Some(s.waiting[0])) else (s.(n := s.n + 1), None)
  }

  predicate WaitOk<T(==)>(s: Sem<T>) {
    s.waiting != [] ==> s.n == 0
  }

  /** Tokens are conserved by every section: what up adds is either counted or handed to a waiter. */
  lemma Conserved<T(!new)>(s: Sem<T>, t: T)
    requires WaitOk(s)
    ensures var (s', got) := AfterTry(s); WaitOk(s') && s'.n + (if got then 1 else 0) == s.n && s'.waiting == s.waiting
    ensures var (s', got) := AfterRecheck(s, t); WaitOk(s') && s'.n + (if got then 1 else 0) == s.n && (!got ==> s'.n == 0)
    ensures var (s', w) := AfterUp(s); WaitOk(s') && s'.n + (if w.Some? then 1 else 0) == s.n + 1
  {
  }

  /** The sections in full: down takes a token where there is one and otherwise waits at the end; up hands its token to
      the thread that has waited longest. */
  lemma SectionsDo<T(!new)>(s: Sem<T>, t: T)
    ensures AfterTry(s) == if s.n > 0 then (Sem(s.n - 1, s.waiting), true) else (s, false)
    ensures var (s', got) := AfterRecheck(s, t); got == (s.n > 0) && s'.n == s.n - (if got then 1 else 0) && s'.waiting == s.waiting + (if got then [] else [t])
    ensures var (s', w) := AfterUp(s);
            && (s.waiting == [] ==> w == None && s'.n == s.n + 1 && s'.waiting == [])
            && (s.waiting != [] ==> w == Some(s.waiting[0]) && s'.n == s.n && s.waiting == [s.waiting[0]] + s'.waiting)
  {
  }

  class Semaphore {
    var n: nat
    const waiting: Queue

    ghost function Value(): Sem<Tcb>
      reads this, waiting
    {
      Sem(n, waiting.contents)
    }

    ghost predicate Valid()
      reads this, waiting, waiting.contents
    {
      waiting.Valid() && WaitOk(Value())
    }

    constructor (n: nat)
      ensures Valid() && Value() == Sem(n, []) && fresh(waiting)
    {
      this.n := n;
      this.waiting := new Queue();
    }

    method TryDown() returns (got: bool)
      requires Valid()
      modifies this
      ensures Valid() && (Value(), got) == AfterTry(old(Value()))
    {
      if n > 0 {
        n := n - 1;
        return true;
      }
      return false;
    }

    method Recheck(t: Tcb) returns (got: bool)
      requires Valid() && t !in waiting.contents
      modifies this, waiting, t, waiting.contents
      ensures Valid() && (Value(), got) == AfterRecheck(old(Value()), t)
    {
      if n > 0 {
        n := n - 1;
        return true;
      }
      waiting.Add(t);
      return false;
    }

    method Up() returns (wakeup: Tcb?)
      requires Valid()
      modifies this, waiting
      ensures Valid()
      ensures Value() == AfterUp(old(Value())).0
      ensures wakeup == (if AfterUp(old(Value())).1.None? then null else AfterUp(old(Value())).1.value)
    {
      wakeup := waiting.Remove();
      if wakeup == null { n := n + 1; }
    }
  }
}
