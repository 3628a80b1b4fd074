/** Every interleaving of the scheduler's steps on any number of cores: the invariant, the account of the tokens by what
    happened in the run, the order of wakeups, sleepers, and that nobody is forgotten. */
module SchedulerRuns {
  import opened Basics
  import opened Counting
  import opened Semaphores
  import opened Scheduler
  import opened SchedulerProofs
  import opened SchedulerEffects

  /** A run: a step that is not possible when its turn comes does not happen. */
  ghost function Execute(s: State, steps: seq<Step>): State
    requires Inv(s)
    decreases |steps|
  {
    if steps == [] then s
    else if !Enabled(s, steps[0]) then Execute(s, steps[1..])
    else
      StepKeeps(s, steps[0]);
      Execute(Next(s, steps[0]), steps[1..])
  }

  lemma {:induction false} RunKeeps(s: State, steps: seq<Step>)
    requires Inv(s)
    ensures Inv(Execute(s, steps))
    decreases |steps|
  {
    hide Inv, Enabled, Next;
    if steps != [] {
      if Enabled(s, steps[0]) {
        StepKeeps(s, steps[0]);
        RunKeeps(Next(s, steps[0]), steps[1..]);
      } else {
        RunKeeps(s, steps[1..]);
      }
    }
  }

  // ---------- the history of a run ----------

  lemma {:induction false} RunSems(s: State, steps: seq<Step>, m: int)
    requires Inv(s) && m in s.sems
    ensures m in Execute(s, steps).sems && m in Execute(s, steps).tally
    decreases |steps|
  {
    hide Inv, Enabled, After, Next;
    if steps == [] {
      TallyKeys(s);
    } else if Enabled(s, steps[0]) {
      NextOf(s, steps[0], m);
      RunSems(Next(s, steps[0]), steps[1..], m);
    } else {
      RunSems(s, steps[1..], m);
    }
  }

  lemma TallyKeys(s: State)
    requires Inv(s)
    ensures s.tally.Keys == s.sems.Keys
  {
  }

  /** One step of a run: it keeps the invariant and the account of m. */
  lemma NextOf(s: State, step: Step, m: int)
    requires Inv(s) && Enabled(s, step) && m in s.sems
    ensures Able(s, step) && Inv(Next(s, step)) && m in Next(s, step).sems && Accounts(s, Next(s, step), step, m)
  {
    hide Inv, Enabled, Next;
    AbleOf(s, step);
    AfterKeeps(s, step);
    TokensMove(s, step, m);
  }

  /** The number of ups of m in a run. */
  ghost function UpsIn(s: State, steps: seq<Step>, m: int): nat
    requires Inv(s)
    decreases |steps|
  {
    if steps == [] then 0
    else if !Enabled(s, steps[0]) then UpsIn(s, steps[1..], m)
    else
      StepKeeps(s, steps[0]);
      One(Ups(steps[0], m)) + UpsIn(Next(s, steps[0]), steps[1..], m)
  }

  /** How often a thread is given a token of m in a run. */
  ghost function GrantsIn(s: State, steps: seq<Step>, m: int): nat
    requires Inv(s)
    decreases |steps|
  {
    if steps == [] then 0
    else if !Enabled(s, steps[0]) then GrantsIn(s, steps[1..], m)
    else
      StepKeeps(s, steps[0]);
      One(Grants(s, steps[0], m)) + GrantsIn(Next(s, steps[0]), steps[1..], m)
  }

  /** The tally of a semaphore is what happened: the ups in the run, and the tokens given out in it. */
  lemma {:induction false} TallyIsHistory(s: State, steps: seq<Step>, m: int)
    requires Inv(s) && m in s.sems
    ensures m in s.tally && m in Execute(s, steps).tally
    ensures Execute(s, steps).tally[m] == Tally(s.tally[m].initial, s.tally[m].ups + UpsIn(s, steps, m), s.tally[m].grants + GrantsIn(s, steps, m))
    decreases |steps|
  {
    hide Inv, Enabled, After, Next, Ups, Grants, Joins;
    TallyKeys(s);
    RunSems(s, steps, m);
    if steps != [] {
      if Enabled(s, steps[0]) {
        NextOf(s, steps[0], m);
        TallyIsHistory(Next(s, steps[0]), steps[1..], m);
      } else {
        TallyIsHistory(s, steps[1..], m);
      }
    }
  }

  /** After any interleaving every thread is in exactly one place; every semaphore has the tokens it had before and one
      for each up since, less those given out since; and nobody waits at a semaphore with a token. */
  lemma RunIsSafe(s: State, steps: seq<Step>, t: int, m: int)
    requires Inv(s)
    ensures var s' := Execute(s, steps);
            && (t in s'.place ==> exists p :: OnlyPlace(s', t, p))
            && (m in s.sems ==>
                  && m in s'.sems && s'.sems[m].n + GrantsIn(s, steps, m) == s.sems[m].n + UpsIn(s, steps, m)
                  && (s'.sems[m].waiting != [] ==> s'.sems[m].n == 0))
  {
    hide Execute, Sits, OnlyPlace, UpsIn, GrantsIn;
    RunKeeps(s, steps);
    var s' := Execute(s, steps);
    if t in s'.place { ExactlyOnePlace(s', t); }
    if m in s.sems {
      TallyIsHistory(s, steps, m);
      RunSems(s, steps, m);
      SemAt(s, m);
      SemAt(s', m);
    }
  }

  /** A thread that waits after a run does so because every token there was at its start and every one that an up has
      added since has been given to somebody. */
  lemma NoLostWakeup(s: State, steps: seq<Step>, m: int, t: int)
    requires Inv(s) && m in s.sems
    ensures m in Execute(s, steps).sems
    ensures t in Execute(s, steps).sems[m].waiting ==> GrantsIn(s, steps, m) == s.sems[m].n + UpsIn(s, steps, m)
  {
    hide Inv, Execute, UpsIn, GrantsIn;
    RunIsSafe(s, steps, t, m);
  }

  /** The threads that came to wait at m in a run, and those an up took from its queue, both in order. */
  ghost function Joined(s: State, steps: seq<Step>, m: int): seq<int>
    requires Inv(s) && m in s.sems
    decreases |steps|
  {
    if steps == [] then []
    else if !Enabled(s, steps[0]) then Joined(s, steps[1..], m)
    else
      NextOf(s, steps[0], m);
      Joins(s, steps[0], m) + Joined(Next(s, steps[0]), steps[1..], m)
  }

  ghost function Woken(s: State, steps: seq<Step>, m: int): seq<int>
    requires Inv(s) && m in s.sems
    decreases |steps|
  {
    if steps == [] then []
    else if !Enabled(s, steps[0]) then Woken(s, steps[1..], m)
    else
      NextOf(s, steps[0], m);
      s.sems[m].waiting[..One(Ups(steps[0], m) && s.sems[m].waiting != [])] + Woken(Next(s, steps[0]), steps[1..], m)
  }

  /** Over any run the waiters of a semaphore are given its tokens in the order in which they came. */
  lemma {:induction false} WokenInOrder(s: State, steps: seq<Step>, m: int)
    requires Inv(s) && m in s.sems
    ensures m in Execute(s, steps).sems
    ensures s.sems[m].waiting + Joined(s, steps, m) == Woken(s, steps, m) + Execute(s, steps).sems[m].waiting
    decreases |steps|
  {
    hide Inv, Enabled, After, Next, Ups, Grants, Joins;
    RunSems(s, steps, m);
    if steps != [] {
      if Enabled(s, steps[0]) {
        var step := steps[0];
        NextOf(s, step, m);
        var s1 := Next(s, step);
        WokenInOrder(s1, steps[1..], m);
        var w := s.sems[m].waiting;
        var k := One(Ups(step, m) && w != []);
        Regroup(w, k, Joins(s, step, m), Joined(s1, steps[1..], m), Woken(s1, steps[1..], m), Execute(s1, steps[1..]).sems[m].waiting);
      } else {
        WokenInOrder(s, steps[1..], m);
      }
    }
  }

  lemma Regroup(w: seq<int>, k: nat, j: seq<int>, js: seq<int>, ws: seq<int>, end: seq<int>)
    requires k <= |w| && (w[k..] + j) + js == ws + end
    ensures w + (j + js) == (w[..k] + ws) + end
  {
    assert w + (j + js) == w[..k] + ((w[k..] + j) + js);
    assert (w[..k] + ws) + end == w[..k] + (ws + end);
  }

  // ---------- sleepers ----------

  /** A sleeper stays on the queue of its core, with its time, until that time has come. */
  lemma SleeperStays(s: State, step: Step, c: int, x: Sleeper)
    requires Inv(s) && Enabled(s, step) && c in s.sleeping && x in s.sleeping[c]
    ensures Able(s, step) && c in Next(s, step).sleeping && (x in Next(s, step).sleeping[c] || s.now >= x.at)
    ensures Next(s, step).now >= s.now
  {
    hide Inv, Enabled, Next, SleepOk;
    AbleOf(s, step);
    SleepsAt(s, c);
    SleepersMove(s, step, c);
    ControlAfter(s, step);
    var q, q' := s.sleeping[c], Next(s, step).sleeping[c];
    EnqueuedHas(q, q', x);
    assert q != [] ==> (x in [q[0]] + q' ==> x == q[0] || x in q');
  }

  lemma EnqueuedHas(q: seq<Sleeper>, q': seq<Sleeper>, x: Sleeper)
    ensures forall y :: Enqueued(q, q', y) ==> y in q' && (x in q ==> x in q')
  {
    forall y | Enqueued(q, q', y)
      ensures y in q' && (x in q ==> x in q')
    {
      var k :| EnqueuedAt(q, q', y, k);
      assert q == q[..k] + q[k..];
    }
  }

  lemma SleepsAt(s: State, c: int)
    requires Inv(s) && c in s.sleeping
    ensures SleepOk(s.sleeping[c])
  {
  }

  /** Over any run nobody is woken before the time it sleeps for. */
  lemma {:induction false} NotWokenEarly(s: State, steps: seq<Step>, c: int, x: Sleeper)
    requires Inv(s) && c in s.sleeping && x in s.sleeping[c]
    ensures var s' := Execute(s, steps); s'.now >= s.now && (s'.now < x.at ==> c in s'.sleeping && x in s'.sleeping[c])
    decreases |steps|
  {
    hide Inv, Enabled, Next;
    if steps != [] {
      if Enabled(s, steps[0]) {
        SleeperStays(s, steps[0], c, x);
        StepKeeps(s, steps[0]);
        TimeGoesOn(Next(s, steps[0]), steps[1..]);
        if x in Next(s, steps[0]).sleeping[c] { NotWokenEarly(Next(s, steps[0]), steps[1..], c, x); }
      } else {
        NotWokenEarly(s, steps[1..], c, x);
      }
    }
  }

  lemma {:induction false} TimeGoesOn(s: State, steps: seq<Step>)
    requires Inv(s)
    ensures Execute(s, steps).now >= s.now
    decreases |steps|
  {
    hide Inv, Enabled, Next, Continues;
    if steps != [] {
      if Enabled(s, steps[0]) {
        AbleOf(s, steps[0]);
        StepKeeps(s, steps[0]);
        ControlAfter(s, steps[0]);
        TimeGoesOn(Next(s, steps[0]), steps[1..]);
      } else {
        TimeGoesOn(s, steps[1..]);
      }
    }
  }

  /** A thread whose sleep(after) is served sleeps for at least that long, whatever happens meanwhile. */
  lemma SleepsLongEnough(s: State, c: int, steps: seq<Step>)
    requires Inv(s) && Enabled(s, Serve(c)) && s.control[c].request.Sleep?
    ensures Able(s, Serve(c)) && Inv(After(s, Serve(c)))
    ensures var s' := Execute(After(s, Serve(c)), steps);
            var t, at := s.control[c].t, s.now + s.control[c].request.after;
            s'.now < at ==> c in s'.sleeping && Sleeper(t, at) in s'.sleeping[c] && Sits(s', t, Asleep(c))
  {
    hide Inv, Execute, SleepOk, After;
    AbleOf(s, Serve(c));
    AfterKeeps(s, Serve(c));
    SleepKey(s, c);
    SleepsAt(s, c);
    SleepersMove(s, Serve(c), c);
    var s1, x := After(s, Serve(c)), Sleeper(s.control[c].t, s.now + s.control[c].request.after);
    EnqueuedHas(s.sleeping[c], s1.sleeping[c], x);
    NotWokenEarly(s1, steps, c, x);
  }

  lemma SleepKey(s: State, c: int)
    requires Inv(s) && c in s.control
    ensures c in s.sleeping
  {
  }

  // ---------- the start ----------

  /** Cores start as helpers with empty queues; the first threads are ready. */
  ghost predicate Boot(s: State) {
    && Keys(s) && Distinct(s.ready) && s.reaper == [] && s.collected == {} && s.dead == {}
    && (forall c :: c in s.control ==> s.control[c] == Dispatching && s.active[c] == None && s.requests[c] == None && s.sleeping[c] == [])
    && (forall m :: m in s.sems ==> s.sems[m].waiting == [] && s.tally[m] == Tally(s.sems[m].n, 0, 0))
    && (forall t :: t in s.place <==> t in s.ready) && (forall t :: t in s.place ==> s.place[t] == Ready)
  }

  lemma BootInv(s: State)
    requires Boot(s)
    ensures Inv(s)
  {
    assert Placed(s) by {
      forall t, p {:trigger Sits(s, t, p)}
        ensures Sits(s, t, p) <==> p == Ready && t in s.ready
      {
      }
    }
  }

  // ---------- nobody is forgotten ----------

  /** The helper of core c spins: nothing is ready and none of its sleepers is due. */
  predicate Idle(s: State, c: int) {
    c in s.control && s.control[c] == Dispatching && s.ready == [] && !Due(s, c)
  }

  /** When every core spins, each thread that has not finished waits at a semaphore all of whose tokens are given
      out, or sleeps until a later time. */
  lemma NobodyForgotten(s: State, t: int)
    requires Inv(s) && (exists c :: c in s.control) && (forall c :: c in s.control ==> Idle(s, c)) && t in s.place
    ensures match s.place[t]
            case Waiting(m) => m in s.sems && s.sems[m].n == 0 && s.tally[m].grants == s.tally[m].initial + s.tally[m].ups
            case Asleep(c) => c in s.sleeping && exists i :: 0 <= i < |s.sleeping[c]| && s.sleeping[c][i].t == t && s.sleeping[c][i].at > s.now
            case p => p == Reaper || p == Collected || p == Dead
  {
    assert Sits(s, t, s.place[t]);
    var core :| core in s.control;
    assert Idle(s, core);
    forall c {:trigger Idle(s, c)} | c in s.control
      ensures !Sits(s, t, Running(c)) && !Sits(s, t, InHand(c)) && !Sits(s, t, Requested(c))
    {
      CoreAt(s, c);
    }
    assert forall c :: c in s.control ==> Idle(s, c);
    match s.place[t]
    case Waiting(m) => AllGivenOut(s, m, t);
    case Asleep(c) =>
      var i :| 0 <= i < |s.sleeping[c]| && s.sleeping[c][i].t == t;
      assert Idle(s, c) && SleepOk(s.sleeping[c]);
    case _ =>
  }

  /** The next step of core c when it is not idle. */
  function StepOf(s: State, c: int): Step
    requires c in s.control && c in s.requests
  {
    match s.control[c]
    case Run(_) => Want(c, Yield)
    case UpHand(_, _) => AddWoken(c)
    case Wants(_, _) => Detach(c)
    case Leaving(_, _) => Post(c)
    case Waking(_, _) => AddReady(c)
    case Doing(_, _) => Serve(c)
    case ReapUp => ReapUpStep(c)
    case Chosen(_) => Activate(c)
    case Top => if Due(s, c) then WakeTake(c) else if s.requests[c].Some? then TakeRequest(c) else NoRequest(c)
    case Dispatching => if Due(s, c) then WakeTake(c) else Choose(c)
  }

  /** Every core can take a step unless it is idle: no core waits for another. */
  lemma NeverStuck(s: State, c: int)
    requires Inv(s) && c in s.control
    ensures Idle(s, c) || (OfCore(StepOf(s, c), c) && Enabled(s, StepOf(s, c)))
  {
    hide Placed, Cores, Sems, Sleeps;
  }

  predicate OfCore(step: Step, c: int) {
    !step.Tick? && step.core == c
  }
}
