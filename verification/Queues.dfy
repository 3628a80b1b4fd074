/** The linked queues of kernel/queue.h and the sorted sleep queue of kernel/threads.cc.  The links live in
    the control blocks, so a block can be in at most one queue. */
module Queues {
  import opened Basics

  class Tcb {
    var next: Tcb?
    var at: int

    constructor ()
      ensures next == null
    {
      next := null;
      at := 0;
    }
  }

  /** s is the chain from s[0]: each block points to the one after it, the last to null. */
  ghost predicate Chain(s: seq<Tcb>)
    reads s
  {
    && (forall i {:trigger s[i].next} :: 0 <= i < |s| - 1 ==> s[i].next == s[i + 1])
    && (s != [] ==> s[|s| - 1].next == null)
  }

  class Queue {
    var first: Tcb?
    var last: Tcb?
    ghost var contents: seq<Tcb>

    ghost predicate Valid()
      reads this, contents
    {
      && Distinct(contents) && Chain(contents)
      && first == (if contents == [] then null else contents[0])
      && last == (if contents == [] then null else contents[|contents| - 1])
    }

    constructor ()
      ensures Valid() && contents == []
    {
      first, last, contents := null, null, [];
    }

    method AddFront(t: Tcb)
      requires Valid() && t !in contents
      modifies this, t
      ensures Valid() && contents == [t] + old(contents)
    {
      t.next := first;
      first := t;
      if last == null { last := t; }
      contents := [t] + contents;
    }

    /** t may still carry the link of the queue it was in before. */
    method Add(t: Tcb)
      requires Valid() && t !in contents
      modifies this, t, contents
      ensures Valid() && contents == old(contents) + [t]
    {
      t.next := null;
      if first == null {
        first := t;
      } else {
        last.next := t;
      }
      last := t;
      contents := contents + [t];
    }

    method Remove() returns (it: Tcb?)
      requires Valid()
      modifies this
      ensures Valid()
      ensures old(contents) == [] ==> it == null && contents == []
      ensures old(contents) != [] ==> it == old(contents)[0] && contents == old(contents)[1..]
    {
      if first == null { return null; }
      it := first;
      first := it.next;
      if first == null { last := null; }
      assert contents[0] == it;
      contents := contents[1..];
    }

    /** The whole chain is handed over: the caller walks it through `next`. */
    method RemoveAll() returns (it: Tcb?)
      requires Valid()
      modifies this
      ensures Valid() && contents == []
      ensures it == (if old(contents) == [] then null else old(contents)[0])
      ensures Chain(old(contents))
    {
      it := first;
      first, last, contents := null, null, [];
    }
  }

  // ---------- the sleep queue ----------

  predicate ByTime(times: seq<int>) {
    forall i, j :: 0 <= i < j < |times| ==> times[i] <= times[j]
  }

  /** k is the place of a block that wakes at `at`: after every block that wakes no later. */
  predicate IsSlot(times: seq<int>, at: int, k: nat) {
    k <= |times| && (forall i :: 0 <= i < k ==> times[i] <= at) && (k < |times| ==> times[k] > at)
  }

  lemma InsertByTime(times: seq<int>, at: int, k: nat)
    requires ByTime(times) && IsSlot(times, at, k)
    ensures ByTime(times[..k] + [at] + times[k..])
  {
    var r := times[..k] + [at] + times[k..];
    assert forall i :: 0 <= i < |r| ==> r[i] == if i < k then times[i] else if i == k then at else times[i - 1];
  }

  lemma InsertDistinct(s: seq<Tcb>, k: nat, t: Tcb)
    requires Distinct(s) && k <= |s| && t !in s
    ensures Distinct(s[..k] + [t] + s[k..])
  {
    var r := s[..k] + [t] + s[k..];
    assert forall i :: 0 <= i < |r| ==> r[i] == if i < k then s[i] else if i == k then t else s[i - 1];
  }

  lemma LinkedIn(s: seq<Tcb>, k: nat, t: Tcb)
    requires k <= |s| && t.next == if k < |s| then s[k] else null
    requires forall i {:trigger s[i].next} :: 0 <= i < |s| - 1 && i != k - 1 ==> s[i].next == s[i + 1]
    requires 0 < k ==> s[k - 1].next == t
    requires k < |s| ==> s[|s| - 1].next == null
    ensures Chain(s[..k] + [t] + s[k..])
  {
    var r := s[..k] + [t] + s[k..];
    assert forall i :: 0 <= i < |r| ==> r[i] == if i < k then s[i] else if i == k then t else s[i - 1];
  }

  /** The blocks of s wake at the times given. */
  ghost predicate WakeAt(s: seq<Tcb>, times: seq<int>)
    reads s
  {
    |s| == |times| && forall i {:trigger s[i].at} :: 0 <= i < |s| ==> s[i].at == times[i]
  }

  lemma TimedIn(s: seq<Tcb>, times: seq<int>, k: nat, t: Tcb)
    requires WakeAt(s, times) && k <= |s|
    ensures WakeAt(s[..k] + [t] + s[k..], times[..k] + [t.at] + times[k..])
  {
    var r, u := s[..k] + [t] + s[k..], times[..k] + [t.at] + times[k..];
    assert forall i :: 0 <= i < |r| ==> r[i] == if i < k then s[i] else if i == k then t else s[i - 1];
    assert forall i :: 0 <= i < |r| ==> u[i] == if i < k then times[i] else if i == k then t.at else times[i - 1];
  }

  class SleepQueue {
    var first: Tcb?
    ghost var contents: seq<Tcb>
    ghost var times: seq<int>

    ghost predicate Valid()
      reads this, contents
    {
      && Distinct(contents) && Chain(contents) && WakeAt(contents, times) && ByTime(times)
      && first == (if contents == [] then null else contents[0])
    }

    constructor ()
      ensures Valid() && contents == []
    {
      first, contents, times := null, [], [];
    }

    /** The loop of add: p is the first block that wakes later than `at`, prev the one before it. */
    method Find(at: int) returns (prev: Tcb?, p: Tcb?, ghost k: nat)
      requires Valid()
      ensures IsSlot(times, at, k)
      ensures p == if k < |contents| then contents[k] else null
      ensures prev == if k == 0 then null else contents[k - 1]
    {
      prev, p, k := null, first, 0;
      while p != null && p.at <= at
        invariant k <= |contents| && p == (if k < |contents| then contents[k] else null)
        invariant prev == if k == 0 then null else contents[k - 1]
        invariant forall i :: 0 <= i < k ==> times[i] <= at
        decreases |contents| - k
      {
        prev := p;
        p := p.next;
        k := k + 1;
      }
    }

    /** Sorted insertion; blocks with the same time stay in order of arrival. */
    method Add(t: Tcb, jiffies: int, after: nat) returns (ghost k: nat)
      requires Valid() && t !in contents
      modifies this, t, contents
      ensures Valid() && t.at == jiffies + after && IsSlot(old(times), t.at, k)
      ensures contents == old(contents)[..k] + [t] + old(contents)[k..]
      ensures times == old(times)[..k] + [t.at] + old(times)[k..]
    {
      hide ByTime, IsSlot;
      ghost var s := contents;
      var at := jiffies + after;
      var prev, p;
      prev, p, k := Find(at);
      SlotBound(times, at, k);
      t.at := at;
      t.next := p;
      if prev == null { first := t; } else { prev.next := t; }
      LinkedIn(s, k, t);
      InsertDistinct(s, k, t);
      InsertByTime(times, at, k);
      TimedIn(s, times, k, t);
      contents, times := s[..k] + [t] + s[k..], times[..k] + [at] + times[k..];
    }

    /** The earliest block whose time has come. */
    method Remove(jiffies: int) returns (p: Tcb?)
      requires Valid()
      modifies this, contents
      ensures Valid()
      ensures p == null ==> contents == old(contents) && times == old(times) && forall i :: 0 <= i < |times| ==> times[i] > jiffies
      ensures p != null ==>
                && old(contents) != [] && p == old(contents)[0] && old(times)[0] <= jiffies
                && contents == old(contents)[1..] && times == old(times)[1..]
    {
      if first == null || first.at > jiffies { return null; }
      p := first;
      first := p.next;
      ghost var s := contents;
      contents, times := s[1..], times[1..];
      p.next := null;
      assert forall i :: 0 <= i < |contents| ==> contents[i] == s[i + 1] && contents[i] != p;
    }
  }

  lemma SlotBound(times: seq<int>, at: int, k: nat)
    requires IsSlot(times, at, k)
    ensures k <= |times|
  {
  }
}
