/** What each step of the scheduler does, told from the state before it: who moves where, the order of the queues, the
    tokens of the semaphores, the requests of the threads, and the time a sleeper is given. */
module SchedulerEffects {
  import opened Basics
  import opened Counting
  import opened Scheduler
  import opened SchedulerProofs

  /** The step is possible in a state whose fields fit together. */
  ghost predicate Able(s: State, step: Step) {
    Keys(s) && Enabled(s, step) && (step.Serve? ==> RequestOk(s, s.control[step.core].request))
  }

  /** The state after a step that is possible. */
  ghost function After(s: State, step: Step): State
    requires Able(s, step)
  {
    Next(s, step)
  }

  lemma AbleOf(s: State, step: Step)
    requires Inv(s) && Enabled(s, step)
    ensures Able(s, step)
  {
    hide Inv, Enabled;
    StepKeeps(s, step);
  }

  predicate OfThread(step: Step) {
    step.Spawn? || step.TryDown? || step.Want? || step.Detach? || step.Post? || step.Up? || step.AddWoken?
  }

  predicate OfReaper(step: Step) {
    step.Tick? || step.Collect? || step.Bury? || step.Return? || step.TakeDead?
  }

  // ---------- what a step may touch ----------

  predicate OnReady(step: Step) { step.Spawn? || step.AddWoken? || step.AddReady? || step.Choose? || step.Serve? }
  predicate OnReaper(step: Step) { step.Collect? || step.Return? || step.TakeDead? || step.Serve? }
  predicate OnSems(step: Step) { step.TryDown? || step.Up? || step.ReapUpStep? || step.Serve? }
  predicate OnSleeping(step: Step) { step.WakeTake? || step.Serve? }
  predicate OnRequests(step: Step) { step.Post? || step.TakeRequest? }
  predicate OnControl(step: Step) { !OfReaper(step) && !step.Spawn? }

  /** From s to s' only the parts a step is about may differ. */
  ghost predicate Frame(s: State, s': State, step: Step) {
    && (!OnReady(step) ==> s'.ready == s.ready)
    && (!OnReaper(step) ==> s'.reaper == s.reaper)
    && (!OnSems(step) ==> s'.sems == s.sems && s'.tally == s.tally)
    && (!OnSleeping(step) ==> s'.sleeping == s.sleeping)
    && (!OnRequests(step) ==> s'.requests == s.requests)
    && (!OnControl(step) ==> s'.control == s.control)
    && s'.now == s.now + One(step.Tick?)
  }

  lemma ThreadFrame(s: State, step: Step)
    requires Able(s, step) && OfThread(step)
    ensures Frame(s, After(s, step), step)
  {
  }

  lemma HelperFrame(s: State, step: Step)
    requires Able(s, step) && !OfThread(step) && !OfReaper(step)
    ensures Frame(s, After(s, step), step)
  {
  }

  lemma ReaperFrame(s: State, step: Step)
    requires Able(s, step) && OfReaper(step)
    ensures Frame(s, After(s, step), step)
  {
  }

  lemma Framed(s: State, step: Step)
    requires Able(s, step)
    ensures Frame(s, After(s, step), step)
  {
    hide Enabled, After, Frame;
    if OfThread(step) { ThreadFrame(s, step); } else if OfReaper(step) { ReaperFrame(s, step); } else { HelperFrame(s, step); }
  }

  // ---------- which threads move, and where to ----------

  /** The step is an up of m: by a thread, or by the helper that hands a finished thread to the reaper. */
  predicate Ups(step: Step, m: int) {
    (step.Up? && step.sem == m) || (step.ReapUpStep? && m == REAPER)
  }

  /** The step is the second half of a down of m. */
  predicate Rechecks(s: State, step: Step, m: int) {
    step.Serve? && step.core in s.control && s.control[step.core].Doing? && s.control[step.core].request == Down(m)
  }

  /** The step gives a token of m to a thread: to the first waiter, or to a thread that finds one. */
  ghost predicate Grants(s: State, step: Step, m: int)
    requires Enabled(s, step)
  {
    m in s.sems &&
      if Ups(step, m) then s.sems[m].waiting != []
      else ((step.TryDown? && step.sem == m) || Rechecks(s, step, m)) && s.sems[m].n > 0
  }

  /** Where a request takes its thread. */
  function ServedTo(s: State, c: int, r: Request): Place {
    match r
    case Down(m) => if m in s.sems && s.sems[m].n == 0 then Waiting(m) else InHand(c)
    case Yield => Ready
    case Sleep(_) => Asleep(c)
    case Stop => Reaper
  }

  /** The thread that a step moves, with its new place; everything but Collect moves at most one. */
  ghost function Move1(s: State, step: Step): Opt<(int, Place)>
    requires Keys(s) && Enabled(s, step)
  {
    match step
    case Spawn(_, t) => Some((t, Ready))
    case Post(c) => Some((s.control[c].t, Requested(c)))
    case Up(c, m) => if s.sems[m].waiting == [] then None else Some((s.sems[m].waiting[0], InHand(c)))
    case ReapUpStep(c) => if s.sems[REAPER].waiting == [] then None else Some((s.sems[REAPER].waiting[0], InHand(c)))
    case AddWoken(c) => Some((s.control[c].woken, Ready))
    case AddReady(c) => Some((s.control[c].woken, Ready))
    case WakeTake(c) => Some((s.sleeping[c][0].t, InHand(c)))
    case TakeRequest(c) => Some((s.requests[c].value.0, InHand(c)))
    case Serve(c) => Some((s.control[c].t, ServedTo(s, c, s.control[c].request)))
    case Choose(c) => Some((s.ready[0], InHand(c)))
    case Activate(c) => Some((s.control[c].t, Running(c)))
    case Bury(_, t) => Some((t, Dead))
    case Return(_, t) => Some((t, Reaper))
    case TakeDead(_) => Some((s.reaper[0], Dead))
    case _ => None
  }

  /** After a step t sits at q: the thread that moves at its new place, everybody else where they were. */
  ghost predicate SitsAfter(s: State, step: Step, t: int, q: Place)
    requires Keys(s) && Enabled(s, step)
  {
    if step.Collect? && Sits(s, t, Reaper) then q == Place.Collected
    else if Move1(s, step).Some? && Move1(s, step).value.0 == t then q == Move1(s, step).value.1
    else Sits(s, t, q)
  }

  lemma SitsIsPlace(s: State, t: int, q: Place)
    requires Placed(s)
    ensures Sits(s, t, q) <==> t in s.place && s.place[t] == q
  {
    hide Sits;
    if t in s.place { assert Sits(s, t, s.place[t]); }
  }

  /** The record of places after a step. */
  lemma PlaceAfter(s: State, step: Step)
    requires Inv(s) && Able(s, step) && !step.Collect?
    ensures After(s, step).place == match Move1(s, step) case None => s.place case Some(x) => s.place[x.0 := x.1]
  {
    hide Cores, Sleeps, Sems, Distinct, Inv, Placed;
    if step.Serve? { HeldPlace(s, step.core); }
  }

  lemma HeldPlace(s: State, c: int)
    requires Inv(s) && c in s.control && s.control[c].Doing?
    ensures s.control[c].t in s.place && s.place[s.control[c].t] == InHand(c)
  {
    hide Cores, Sleeps, Sems, Distinct;
    assert Sits(s, s.control[c].t, InHand(c));
  }

  lemma PlacedOf(s: State)
    requires Inv(s)
    ensures Keys(s) && Placed(s)
  {
  }

  lemma BothPlaced(s: State, step: Step, t: int, q: Place)
    requires Inv(s) && Able(s, step)
    ensures (Sits(s, t, q) <==> t in s.place && s.place[t] == q) && (Sits(s, t, Reaper) <==> t in s.reaper)
    ensures var s' := After(s, step); Sits(s', t, q) <==> t in s'.place && s'.place[t] == q
  {
    hide Sits, Inv, Keys, Placed, Enabled, After, Next;
    AfterKeeps(s, step);
    PlacedOf(s);
    PlacedOf(After(s, step));
    SitsIsPlace(After(s, step), t, q);
    SitsIsPlace(s, t, q);
    InReaper(s, t);
  }

  lemma OneMoves(s: State, step: Step, t: int, q: Place)
    requires Inv(s) && Able(s, step) && !step.Collect?
    ensures Sits(After(s, step), t, q) <==> SitsAfter(s, step, t, q)
  {
    hide Sits, Inv, Able, Move1, After;
    BothPlaced(s, step, t, q);
    PlaceAfter(s, step);
  }

  /** Every step moves exactly the thread it is about, to exactly one place, and nobody else. */
  lemma StepMoves(s: State, step: Step, t: int, q: Place)
    requires Inv(s) && Able(s, step)
    ensures Sits(After(s, step), t, q) <==> SitsAfter(s, step, t, q)
  {
    hide Sits, Inv, Able, Move1, After;
    if step.Collect? {
      BothPlaced(s, step, t, q);
      BothPlaced(s, step, t, Reaper);
      CollectPlace(s, step);
    } else {
      OneMoves(s, step, t, q);
    }
  }

  lemma AfterKeeps(s: State, step: Step)
    requires Inv(s) && Able(s, step)
    ensures Inv(After(s, step))
  {
    hide Inv, Next, Enabled;
    StepKeeps(s, step);
  }

  lemma CollectPlace(s: State, step: Step)
    requires Able(s, step) && step.Collect?
    ensures Move1(s, step) == None
    ensures After(s, step).place.Keys == s.place.Keys
    ensures forall t :: t in s.place ==> After(s, step).place[t] == if t in s.reaper then Place.Collected else s.place[t]
  {
  }

  lemma InReaper(s: State, t: int)
    ensures Sits(s, t, Reaper) <==> t in s.reaper
  {
  }

  // ---------- tokens and queues ----------

  /** The thread that comes to wait at m. */
  function Joins(s: State, step: Step, m: int): seq<int>
    requires m in s.sems
  {
    if Rechecks(s, step, m) && s.sems[m].n == 0 then [s.control[step.core].t] else []
  }

  /** From s to s' semaphore m gains a token with an up and loses one with a grant, its first waiter leaves with an up,
      and a thread joins at the end exactly when it checks again in vain. */
  ghost predicate Accounts(s: State, s': State, step: Step, m: int)
    requires Keys(s) && Enabled(s, step) && m in s.sems
  {
    && m in s'.sems && m in s'.tally
    && s'.sems[m].n + One(Grants(s, step, m)) == s.sems[m].n + One(Ups(step, m))
    && s'.sems[m].waiting == s.sems[m].waiting[One(Ups(step, m) && s.sems[m].waiting != [])..] + Joins(s, step, m)
    && s'.tally[m] == Tally(s.tally[m].initial, s.tally[m].ups + One(Ups(step, m)), s.tally[m].grants + One(Grants(s, step, m)))
  }

  lemma UpAccounts(s: State, step: Step, m: int)
    requires Able(s, step) && m in s.sems && (step.Up? || step.ReapUpStep?)
    ensures Accounts(s, After(s, step), step, m)
  {
  }

  lemma TryAccounts(s: State, step: Step, m: int)
    requires Able(s, step) && m in s.sems && step.TryDown?
    ensures Accounts(s, After(s, step), step, m)
  {
  }

  lemma ServeAccounts(s: State, step: Step, m: int)
    requires Able(s, step) && m in s.sems && step.Serve?
    ensures Accounts(s, After(s, step), step, m)
  {
  }

  lemma SameSems(s: State, step: Step)
    requires Able(s, step) && !OnSems(step)
    ensures After(s, step).sems == s.sems && After(s, step).tally == s.tally
  {
    hide Enabled, After;
    Framed(s, step);
  }

  lemma SameAccounts(s: State, s': State, step: Step, m: int)
    requires Able(s, step) && m in s.sems && s'.sems == s.sems && s'.tally == s.tally
    requires !OnSems(step)
    ensures Accounts(s, s', step, m)
  {
    hide Enabled;
    assert s.sems[m].waiting[0..] + [] == s.sems[m].waiting;
  }

  /** Every step that is possible keeps the account of every semaphore. */
  lemma TokensMove(s: State, step: Step, m: int)
    requires Able(s, step) && m in s.sems
    ensures Accounts(s, After(s, step), step, m)
  {
    hide Able, After, Accounts;
    match step {
      case Up(_, _) | ReapUpStep(_) => UpAccounts(s, step, m);
      case TryDown(_, _) => TryAccounts(s, step, m);
      case Serve(_) => ServeAccounts(s, step, m);
      case _ =>
        SameSems(s, step);
        SameAccounts(s, After(s, step), step, m);
    }
  }

  /** up in full: without a waiter the count goes up; otherwise the first waiter is taken, and the core has it in hand. */
  lemma UpGives(s: State, c: int, m: int)
    requires Able(s, Up(c, m))
    ensures var s', sem := After(s, Up(c, m)), s.sems[m];
            && s'.sems.Keys == s.sems.Keys && (forall k :: k in s.sems && k != m ==> s'.sems[k] == s.sems[k])
            && (sem.waiting == [] ==> s'.sems[m].n == sem.n + 1 && s'.sems[m].waiting == [] && s'.control == s.control)
            && (sem.waiting != [] ==>
                  && s'.sems[m].n == sem.n && sem.waiting == [sem.waiting[0]] + s'.sems[m].waiting
                  && s'.control == s.control[c := UpHand(s.control[c].t, sem.waiting[0])]
                  && Sits(s', sem.waiting[0], InHand(c)))
  {
  }

  lemma NoneTo(s: State, step: Step)
    requires Able(s, step)
    ensures !OnReady(step) ==> MovedTo(s, step, Ready) == []
    ensures !OnReaper(step) ==> MovedTo(s, step, Reaper) == []
  {
  }

  lemma ReadyTouched(s: State, step: Step)
    requires Able(s, step) && OnReady(step)
    ensures After(s, step).ready == s.ready[One(step.Choose?)..] + MovedTo(s, step, Ready)
  {
  }

  /** Threads are dispatched in the order in which they became ready. */
  lemma ReadyMoves(s: State, step: Step)
    requires Able(s, step)
    ensures After(s, step).ready == s.ready[One(step.Choose?)..] + MovedTo(s, step, Ready)
  {
    hide Able, After, MovedTo;
    assert s.ready[0..] + [] == s.ready;
    if OnReady(step) {
      ReadyTouched(s, step);
    } else {
      Framed(s, step);
      NoneTo(s, step);
    }
  }

  lemma ReaperTouched(s: State, step: Step)
    requires Able(s, step) && OnReaper(step)
    ensures After(s, step).reaper == (if step.Collect? then [] else s.reaper[One(step.TakeDead?)..] + MovedTo(s, step, Reaper))
  {
  }

  /** Finished threads leave the reaper queue in the order in which they stopped, or all together. */
  lemma ReaperMoves(s: State, step: Step)
    requires Able(s, step)
    ensures After(s, step).reaper == (if step.Collect? then [] else s.reaper[One(step.TakeDead?)..] + MovedTo(s, step, Reaper))
  {
    hide Able, After, MovedTo;
    assert s.reaper[0..] + [] == s.reaper;
    if OnReaper(step) {
      ReaperTouched(s, step);
    } else {
      Framed(s, step);
      NoneTo(s, step);
    }
  }

  /** The thread that a step moves to p. */
  ghost function MovedTo(s: State, step: Step, p: Place): seq<int>
    requires Keys(s) && Enabled(s, step)
  {
    match Move1(s, step)
    case Some(x) => if x.1 == p then [x.0] else []
    case None => []
  }

  // ---------- requests, cores and time ----------

  /** What the core of a step does after it. */
  ghost function Continues(s: State, step: Step): Control
    requires Keys(s) && !step.Tick? && Enabled(s, step)
  {
    var k := s.control[step.core];
    match step
    case TryDown(_, m) => if s.sems[m].n == 0 then Wants(k.t, Down(m)) else k
    case Want(_, r) => Wants(k.t, r)
    case Detach(_) => Leaving(k.t, k.request)
    case Post(_) => Top
    case Up(_, m) => if s.sems[m].waiting == [] then k else UpHand(k.t, s.sems[m].waiting[0])
    case AddWoken(_) => Run(k.t)
    case WakeTake(c) => Waking(s.sleeping[c][0].t, k.Top?)
    case AddReady(_) => if k.top then Top else Dispatching
    case TakeRequest(c) => Doing(s.requests[c].value.0, s.requests[c].value.1)
    case NoRequest(_) => Dispatching
    case Serve(_) => if k.request.Stop? then ReapUp else if k.request.Down? && Grants(s, step, k.request.sem) then Waking(k.t, false) else Dispatching
    case ReapUpStep(_) => if s.sems[REAPER].waiting == [] then Dispatching else Waking(s.sems[REAPER].waiting[0], false)
    case Choose(_) => Chosen(s.ready[0])
    case Activate(_) => Run(k.t)
    case _ => k
  }

  /** The cores after a step. */
  ghost predicate Goes(s: State, s': State, step: Step)
    requires Keys(s) && Enabled(s, step)
  {
    s'.now == s.now + One(step.Tick?) && s'.control == if step.Tick? then s.control else s.control[step.core := Continues(s, step)]
  }

  lemma ThreadGoes(s: State, step: Step)
    requires Able(s, step) && OfThread(step) && !step.Spawn?
    ensures After(s, step).control == s.control[step.core := Continues(s, step)]
  {
  }

  lemma HelperGoes(s: State, step: Step)
    requires Able(s, step) && !OfThread(step) && !OfReaper(step)
    ensures After(s, step).control == s.control[step.core := Continues(s, step)]
  {
  }

  /** Creating, burying and returning threads does not change what a core does. */
  lemma GoesOnAs(s: State, step: Step)
    requires Able(s, step) && !OnControl(step)
    ensures !step.Tick? ==> s.control == s.control[step.core := Continues(s, step)]
  {
  }

  lemma Unmoved(s: State, s': State, step: Step)
    requires Frame(s, s', step)
    ensures s'.now == s.now + One(step.Tick?) && (!OnControl(step) ==> s'.control == s.control)
  {
  }

  /** Only a core's own step changes what it does, and that is what it does next; only a tick moves the clock. */
  lemma ControlAfter(s: State, step: Step)
    requires Able(s, step)
    ensures Goes(s, After(s, step), step)
  {
    hide Enabled, After, Frame, Continues;
    Framed(s, step);
    if OfThread(step) && !step.Spawn? {
      ThreadGoes(s, step);
    } else if !OfThread(step) && !OfReaper(step) {
      HelperGoes(s, step);
    } else {
      GoesOnAs(s, step);
    }
    Unmoved(s, After(s, step), step);
  }

  /** What a thread of core c has asked for and not been given yet. */
  function Asked(s: State, c: int): Opt<(int, Request)>
    requires c in s.control && c in s.requests
  {
    match s.control[c]
    case Wants(t, r) => Some((t, r))
    case Leaving(t, r) => Some((t, r))
    case Doing(t, r) => Some((t, r))
    case _ => s.requests[c]
  }

  /** What core c is still asked for after a step. */
  ghost function AskedAfter(s: State, step: Step, c: int): Opt<(int, Request)>
    requires Keys(s) && Enabled(s, step) && c in s.control
  {
    if step.Tick? || step.core != c then Asked(s, c)
    else match step
      case Want(_, r) => Some((s.control[c].t, r))
      case TryDown(_, m) => if s.sems[m].n == 0 then Some((s.control[c].t, Down(m))) else None
      case Serve(_) => None
      case _ => Asked(s, c)
  }

  /** The requests posted and not taken, after a step. */
  ghost predicate PostedAfter(s: State, s': State, step: Step)
    requires Keys(s) && Enabled(s, step)
  {
    match step
    case Post(c) => s'.requests == s.requests[c := Some((s.control[c].t, s.control[c].request))]
    case TakeRequest(c) => s'.requests == s.requests[c := None]
    case _ => s'.requests == s.requests
  }

  lemma PostsMove(s: State, step: Step)
    requires Able(s, step)
    ensures PostedAfter(s, After(s, step), step)
  {
    hide Able, After;
    if OnRequests(step) { PostTouched(s, step); } else { Framed(s, step); }
  }

  lemma PostTouched(s: State, step: Step)
    requires Able(s, step) && OnRequests(step)
    ensures PostedAfter(s, After(s, step), step)
  {
  }

  lemma AskedElsewhere(s: State, s': State, step: Step, c: int)
    requires Able(s, step) && c in s.control && Goes(s, s', step) && PostedAfter(s, s', step) && (step.Tick? || step.core != c)
    ensures c in s'.control && c in s'.requests && Asked(s', c) == Asked(s, c)
  {
    hide Asked, Enabled, Continues;
    assert s'.control[c] == s.control[c] && s'.requests[c] == s.requests[c];
    SameAsked(s, s', c);
  }

  lemma SameAsked(s: State, s': State, c: int)
    requires c in s.control && c in s.requests && c in s'.control && c in s'.requests
    requires s'.control[c] == s.control[c] && s'.requests[c] == s.requests[c]
    ensures Asked(s', c) == Asked(s, c)
  {
  }

  lemma AskedOnTheWay(s: State, s': State, step: Step)
    requires Able(s, step) && (step.Detach? || step.Post?) && Goes(s, s', step) && PostedAfter(s, s', step) && CoreOk(s, step.core)
    ensures var c := step.core; c in s'.control && c in s'.requests && Asked(s', c) == Asked(s, c)
  {
  }

  lemma AskedByThread(s: State, s': State, step: Step)
    requires Able(s, step) && OfThread(step) && Goes(s, s', step) && PostedAfter(s, s', step) && CoreOk(s, step.core)
    ensures var c := step.core; c in s'.control && c in s'.requests && Asked(s', c) == AskedAfter(s, step, c)
  {
    if step.Detach? || step.Post? { hide Enabled, CoreOk, Asked, Continues; AskedOnTheWay(s, s', step); }
  }

  lemma AskedByHelper(s: State, s': State, step: Step)
    requires Able(s, step) && !step.Tick? && !OfThread(step) && Goes(s, s', step) && PostedAfter(s, s', step) && CoreOk(s, step.core)
    ensures var c := step.core; c in s'.control && c in s'.requests && Asked(s', c) == AskedAfter(s, step, c)
  {
  }

  /** A request reaches the helper as it was made: from want, or from a down that finds no token, until it is served. */
  lemma RequestsKept(s: State, step: Step, c: int)
    requires Able(s, step) && c in s.control && CoreOk(s, c)
    ensures var s' := After(s, step); c in s'.control && c in s'.requests && Asked(s', c) == AskedAfter(s, step, c)
  {
    hide Able, After, Goes, Asked, CoreOk, PostedAfter;
    ControlAfter(s, step);
    PostsMove(s, step);
    if step.Tick? || step.core != c { AskedElsewhere(s, After(s, step), step, c); }
    else if OfThread(step) { AskedByThread(s, After(s, step), step); }
    else { AskedByHelper(s, After(s, step), step); }
  }

  // ---------- sleepers ----------

  /** x joins the queue behind every sleeper that is due no later and before every one that is due later. */
  ghost predicate Enqueued(q: seq<Sleeper>, q': seq<Sleeper>, x: Sleeper) {
    exists k {:trigger EnqueuedAt(q, q', x, k)} :: EnqueuedAt(q, q', x, k)
  }

  predicate EnqueuedAt(q: seq<Sleeper>, q': seq<Sleeper>, x: Sleeper, k: int) {
    && 0 <= k <= |q| && q' == q[..k] + [x] + q[k..]
    && (forall i :: 0 <= i < k ==> q[i].at <= x.at) && (forall i :: k <= i < |q| ==> q[i].at > x.at)
  }

  /** A served sleep(after) puts one sleeper on the queue of its core, due at now + after, behind all that are due by then;
      a wakeup takes one that no other sleeper of the core precedes and whose time has come; nothing else changes a sleep
      queue. */
  ghost predicate Slept(s: State, s': State, step: Step, c: int)
    requires Able(s, step) && c in s.sleeping
  {
    && s'.sleeping.Keys == s.sleeping.Keys
    && var q, q' := s.sleeping[c], s'.sleeping[c];
       if step == Serve(c) && s.control[c].request.Sleep? then Enqueued(q, q', Sleeper(s.control[c].t, s.now + s.control[c].request.after))
       else if step == WakeTake(c) then q == [q[0]] + q' && q[0].at <= s.now && (forall x :: x in q' ==> q[0].at <= x.at)
       else q' == q
  }

  lemma ServeSleeps(s: State, step: Step, c: int)
    requires Able(s, step) && c in s.sleeping && SleepOk(s.sleeping[c]) && step.Serve?
    ensures Slept(s, After(s, step), step, c)
  {
    hide InsertSleeper;
    if step == Serve(c) && s.control[c].request.Sleep? {
      var _ := InsertPlace(s.sleeping[c], Sleeper(s.control[c].t, s.now + s.control[c].request.after));
    }
  }

  lemma WakeSleeps(s: State, step: Step, c: int)
    requires Able(s, step) && c in s.sleeping && SleepOk(s.sleeping[c]) && step.WakeTake?
    ensures Slept(s, After(s, step), step, c)
  {
  }

  lemma SameSleeps(s: State, step: Step)
    requires Able(s, step) && !OnSleeping(step)
    ensures After(s, step).sleeping == s.sleeping
  {
    hide Enabled, After;
    Framed(s, step);
  }

  lemma SleepersMove(s: State, step: Step, c: int)
    requires Able(s, step) && c in s.sleeping && SleepOk(s.sleeping[c])
    ensures Slept(s, After(s, step), step, c)
  {
    hide Able, After, SleepOk;
    match step
    case Serve(_) => ServeSleeps(s, step, c);
    case WakeTake(_) => WakeSleeps(s, step, c);
    case _ => SameSleeps(s, step);
  }

  lemma {:induction false} InsertPlace(q: seq<Sleeper>, x: Sleeper) returns (k: int)
    requires SleepOk(q)
    ensures EnqueuedAt(q, InsertSleeper(q, x), x, k)
  {
    if q == [] || q[0].at > x.at {
      k := 0;
      assert q[..0] + [x] + q[0..] == [x] + q;
    } else {
      var rest := q[1..];
      k := InsertPlace(rest, x);
      assert q[..k + 1] == [q[0]] + rest[..k] && q[k + 1..] == rest[k..];
      assert forall i :: 0 < i < |q| ==> q[i] == rest[i - 1];
      k := k + 1;
    }
  }
}
