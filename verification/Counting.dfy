/** Threads counted by what they are doing, and the queue of those that wait. */
module Counting {
  import opened Basics

  ghost function Count<K(!new)>(pcs: map<int, K>, f: K -> bool): nat {
    |set t | t in pcs && f(pcs[t])|
  }

  function One(b: bool): nat {
    if b then 1 else 0
  }

  /** A thread going on from one state to another changes the count by what it leaves and what it enters. */
  lemma CountUpdate<K(!new)>(pcs: map<int, K>, f: K -> bool, t: int, k: K)
    requires t in pcs
    ensures Count(pcs[t := k], f) == Count(pcs, f) - One(f(pcs[t])) + One(f(k))
  {
    var pcs' := pcs[t := k];
    var a, b := set u | u in pcs && f(pcs[u]), set u | u in pcs' && f(pcs'[u]);
    assert a - {t} == b - {t};
    assert |a - {t}| == |a| - One(t in a);
    assert |b - {t}| == |b| - One(t in b);
  }

  /** A thread that is not counted may come and go. */
  lemma CountAdd<K(!new)>(pcs: map<int, K>, f: K -> bool, t: int, k: K)
    requires t !in pcs && !f(k)
    ensures Count(pcs[t := k], f) == Count(pcs, f)
  {
    var pcs' := pcs[t := k];
    assert (set u | u in pcs && f(pcs[u])) == (set u | u in pcs' && f(pcs'[u]));
  }

  lemma CountDrop<K(!new)>(pcs: map<int, K>, f: K -> bool, t: int)
    requires t in pcs && !f(pcs[t])
    ensures Count(pcs - {t}, f) == Count(pcs, f)
  {
    var pcs' := pcs - {t};
    assert (set u | u in pcs && f(pcs[u])) == (set u | u in pcs' && f(pcs'[u]));
  }

  /** Somebody is counted when the count is positive, and only then. */
  lemma CountSome<K(!new)>(pcs: map<int, K>, f: K -> bool)
    ensures Count(pcs, f) > 0 <==> exists t :: t in pcs && f(pcs[t])
  {
    var a := set u | u in pcs && f(pcs[u]);
    if t :| t in pcs && f(pcs[t]) { assert t in a; }
    if Count(pcs, f) > 0 {
      var t := Member(a);
      assert t in pcs && f(pcs[t]);
    }
  }

  lemma Member(a: set<int>) returns (t: int)
    requires |a| > 0
    ensures t in a
  {
    assert (forall u :: u !in a) ==> a == {};
    t :| t in a;
  }

  lemma CountAt<K(!new)>(pcs: map<int, K>, f: K -> bool, t: int)
    requires t in pcs && f(pcs[t])
    ensures Count(pcs, f) > 0
  {
    CountSome(pcs, f);
  }

  /** Two threads counted make two. */
  lemma CountTwo<K(!new)>(pcs: map<int, K>, f: K -> bool, t: int, u: int)
    requires t in pcs && u in pcs && t != u && f(pcs[t]) && f(pcs[u])
    ensures Count(pcs, f) >= 2
  {
    var a := set x | x in pcs && f(pcs[x]);
    assert {t, u} <= a;
    assert |{t, u}| == 2 && |a - {t, u}| == |a| - 2;
  }

  /** When everybody is counted, the count is the number of threads. */
  lemma CountAll<K(!new)>(pcs: map<int, K>, f: K -> bool)
    requires forall t :: t in pcs ==> f(pcs[t])
    ensures Count(pcs, f) == |pcs|
  {
    var a := set t | t in pcs && f(pcs[t]);
    forall t
      ensures t in a <==> t in pcs.Keys
    {
      assert t in pcs ==> f(pcs[t]);
    }
    assert a == pcs.Keys;
  }

  // ---------- waiting threads ----------

  /** The queue holds each thread in a waiting state once and nobody else. */
  ghost predicate Queued<K(!new)>(q: seq<int>, pcs: map<int, K>, w: K -> bool) {
    Distinct(q) && forall t :: t in q <==> t in pcs && w(pcs[t])
  }

  lemma QueuedMember<K(!new)>(q: seq<int>, pcs: map<int, K>, w: K -> bool, t: int)
    requires Queued(q, pcs, w) && t in q
    ensures t in pcs && w(pcs[t])
  {
  }

  lemma QueuedStay<K(!new)>(q: seq<int>, pcs: map<int, K>, w: K -> bool, t: int, k: K)
    requires Queued(q, pcs, w) && t in pcs && !w(pcs[t]) && !w(k)
    ensures Queued(q, pcs[t := k], w)
  {
  }

  lemma QueuedJoin<K(!new)>(q: seq<int>, pcs: map<int, K>, w: K -> bool, t: int, k: K)
    requires Queued(q, pcs, w) && t in pcs && !w(pcs[t]) && w(k)
    ensures Queued(q + [t], pcs[t := k], w)
  {
    assert t !in q;
  }

  lemma QueuedLeave<K(!new)>(q: seq<int>, pcs: map<int, K>, w: K -> bool, k: K)
    requires Queued(q, pcs, w) && q != [] && !w(k)
    ensures q[0] in pcs && w(pcs[q[0]])
    ensures Queued(q[1..], pcs[q[0] := k], w)
  {
    var h := q[0];
    assert h in q <==> h in pcs && w(pcs[h]);
    assert q == [q[0]] + q[1..];
    assert q[0] !in q[1..];
  }
}
