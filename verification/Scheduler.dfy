/** The scheduler of kernel/threads.h and kernel/threads.cc with its semaphores, as a transition system: any
    number of cores, one step per atomic action or spin-protected section, in any interleaving. */
module Scheduler {
  import opened Basics
  import opened Semaphores

  /** What a thread asks the helper of its core to do. */
  datatype Request = Down(sem: int) | Yield | Sleep(after: nat) | Stop

  /** What a core is doing.  The first four run a thread, the others the helper. */
  datatype Control =
    | Run(t: int)                      // thread t in its own code
    | UpHand(t: int, woken: int)       // t inside up, holding the thread it took from the waiters
    | Wants(t: int, request: Request)  // t is about to block
    | Leaving(t: int, request: Request)// active_thread cleared, request not posted yet
    | Top                              // helper at the head of its loop
    | Waking(woken: int, top: bool)    // helper about to put a thread on the ready queue
    | Doing(t: int, request: Request)  // helper carrying out a request
    | ReapUp                           // helper inside reaper_queue->add, before its up
    | Dispatching                      // helper looking for a ready thread
    | Chosen(t: int)                   // helper about to switch to t

  datatype Sleeper = Sleeper(t: int, at: int)

  datatype Place =
    | Running(core: int) | InHand(core: int) | Requested(core: int) | Ready | Waiting(sem: int)
    | Asleep(core: int) | Reaper | Collected | Dead

  /** Tokens a semaphore started with, got from up, and gave out. */
  datatype Tally = Tally(initial: nat, ups: nat, grants: nat)

  /** `place` and `tally` record the run and are never consulted by a step. */
  datatype State = State(
    control: map<int, Control>, active: map<int, Opt<int>>, requests: map<int, Opt<(int, Request)>>,
    sleeping: map<int, seq<Sleeper>>, ready: seq<int>, sems: map<int, Sem<int>>,
    reaper: seq<int>, collected: set<int>, dead: set<int>, now: int,
    place: map<int, Place>, tally: map<int, Tally>)

  const REAPER := 0   // the semaphore of the reaper queue

  // ---------- where a thread is ----------

  predicate IsAsleep(q: seq<Sleeper>, t: int) {
    exists i :: 0 <= i < |q| && q[i].t == t
  }

  /** The thread a core runs. */
  function Thread(k: Control): Opt<int> {
    match k
    case Run(t) => Some(t)
    case UpHand(t, _) => Some(t)
    case Wants(t, _) => Some(t)
    case Leaving(t, _) => Some(t)
    case _ => None
  }

  /** The thread a core holds between two queues. */
  function Hand(k: Control): Opt<int> {
    match k
    case UpHand(_, w) => Some(w)
    case Waking(w, _) => Some(w)
    case Doing(t, _) => Some(t)
    case Chosen(t) => Some(t)
    case _ => None
  }

  /** Thread t is physically at place p. */
  predicate Sits(s: State, t: int, p: Place) {
    match p
    case Running(c) => c in s.control && Thread(s.control[c]) == Some(t)
    case InHand(c) => c in s.control && Hand(s.control[c]) == Some(t)
    case Requested(c) => c in s.requests && s.requests[c].Some? && s.requests[c].value.0 == t
    case Ready => t in s.ready
    case Waiting(m) => m in s.sems && t in s.sems[m].waiting
    case Asleep(c) => c in s.sleeping && IsAsleep(s.sleeping[c], t)
    case Reaper => t in s.reaper
    case Collected => t in s.collected
    case Dead => t in s.dead
  }

  ghost predicate Placed(s: State) {
    && (forall t, p {:trigger Sits(s, t, p)} :: Sits(s, t, p) ==> t in s.place && s.place[t] == p)
    && (forall t {:trigger s.place[t]} :: t in s.place ==> Sits(s, t, s.place[t]))
  }

  // ---------- the rest of the invariant ----------

  /** Each thread once, in order of wakeup time. */
  predicate SleepOk(q: seq<Sleeper>) {
    forall i, j :: 0 <= i < j < |q| ==> q[i].t != q[j].t && q[i].at <= q[j].at
  }

  predicate RequestOk(s: State, r: Request) {
    r.Down? ==> r.sem in s.sems
  }

  /** active_thread and help_requests agree with what the core is doing: these are the assertions in block and helper. */
  predicate CoreOk(s: State, c: int)
    requires c in s.control && c in s.active && c in s.requests
  {
    && s.active[c] == (if s.control[c].Leaving? then None else Thread(s.control[c]))
    && (s.requests[c].Some? ==> (s.control[c] == Top || (s.control[c].Waking? && s.control[c].top)) && RequestOk(s, s.requests[c].value.1))
    && (s.control[c].Wants? || s.control[c].Leaving? || s.control[c].Doing? ==> RequestOk(s, s.control[c].request))
  }

  /** Tokens are conserved, and threads wait only while there are none. */
  predicate SemOk(s: State, m: int)
    requires m in s.sems && m in s.tally
  {
    && Distinct(s.sems[m].waiting) && WaitOk(s.sems[m])
    && s.tally[m].initial + s.tally[m].ups == s.sems[m].n + s.tally[m].grants
  }

  predicate Keys(s: State) {
    && s.active.Keys == s.control.Keys && s.requests.Keys == s.control.Keys && s.sleeping.Keys == s.control.Keys
    && s.tally.Keys == s.sems.Keys && REAPER in s.sems
  }

  ghost predicate Cores(s: State)
    requires Keys(s)
  {
    forall c {:trigger CoreOk(s, c)} :: c in s.control ==> CoreOk(s, c)
  }

  ghost predicate Sems(s: State)
    requires Keys(s)
  {
    forall m {:trigger SemOk(s, m)} :: m in s.sems ==> SemOk(s, m)
  }

  ghost predicate Sleeps(s: State) {
    forall c {:trigger s.sleeping[c]} :: c in s.sleeping ==> SleepOk(s.sleeping[c])
  }

  ghost predicate Inv(s: State) {
    && Keys(s) && Placed(s) && Distinct(s.ready) && Distinct(s.reaper)
    && Cores(s) && Sems(s) && Sleeps(s)
  }

  // ---------- what the invariant says ----------

  /** Every thread ever created is in exactly one place. */
  lemma ExactlyOnePlace(s: State, t: int)
    requires Inv(s) && t in s.place
    ensures exists p :: OnlyPlace(s, t, p)
  {
    assert OnlyPlace(s, t, s.place[t]);
  }

  ghost predicate OnlyPlace(s: State, t: int, p: Place) {
    Sits(s, t, p) && forall q {:trigger Sits(s, t, q)} :: Sits(s, t, q) ==> q == p
  }

  /** A thread waits only when every token there ever was has been given to somebody else. */
  lemma AllGivenOut(s: State, m: int, t: int)
    requires Inv(s) && m in s.sems && t in s.sems[m].waiting
    ensures s.sems[m].n == 0 && s.tally[m].grants == s.tally[m].initial + s.tally[m].ups
  {
    assert SemOk(s, m);
  }

  // ---------- steps ----------

  datatype Step =
    | Tick
    | Spawn(core: int, t: int)
    | TryDown(core: int, sem: int)
    | Want(core: int, request: Request)
    | Detach(core: int)
    | Post(core: int)
    | Up(core: int, sem: int)
    | AddWoken(core: int)
    | WakeTake(core: int)
    | AddReady(core: int)
    | TakeRequest(core: int)
    | NoRequest(core: int)
    | Serve(core: int)
    | ReapUpStep(core: int)
    | Choose(core: int)
    | Activate(core: int)
    | Collect(core: int)
    | Bury(core: int, t: int)
    | Return(core: int, t: int)
    | TakeDead(core: int)

  /** A thread on this core's sleep queue is due. */
  predicate Due(s: State, c: int) {
    c in s.sleeping && s.sleeping[c] != [] && s.sleeping[c][0].at <= s.now
  }

  /** A new control block is one that is in no place. */
  ghost predicate Nowhere(s: State, t: int) {
    forall p {:trigger Sits(s, t, p)} :: !Sits(s, t, p)
  }

  ghost predicate Enabled(s: State, step: Step) {
    match step
    case Tick => true
    case Spawn(c, t) => c in s.control && s.control[c].Run? && Nowhere(s, t)
    case TryDown(c, m) => c in s.control && s.control[c].Run? && m in s.sems
    case Want(c, r) => c in s.control && s.control[c].Run? && !r.Down?
    case Detach(c) => c in s.control && s.control[c].Wants?
    case Post(c) => c in s.control && s.control[c].Leaving?
    case Up(c, m) => c in s.control && s.control[c].Run? && m in s.sems
    case AddWoken(c) => c in s.control && s.control[c].UpHand?
    case WakeTake(c) => c in s.control && (s.control[c].Top? || s.control[c].Dispatching?) && Due(s, c)
    case AddReady(c) => c in s.control && s.control[c].Waking?
    case TakeRequest(c) => c in s.control && s.control[c].Top? && !Due(s, c) && c in s.requests && s.requests[c].Some?
    case NoRequest(c) => c in s.control && s.control[c].Top? && !Due(s, c) && c in s.requests && s.requests[c].None?
    case Serve(c) => c in s.control && s.control[c].Doing?
    case ReapUpStep(c) => c in s.control && s.control[c].ReapUp?
    case Choose(c) => c in s.control && s.control[c].Dispatching? && s.ready != []
    case Activate(c) => c in s.control && s.control[c].Chosen?
    case Collect(c) => c in s.control && s.control[c].Run?
    case Bury(c, t) => c in s.control && s.control[c].Run? && t in s.collected
    case Return(c, t) => c in s.control && s.control[c].Run? && t in s.collected
    case TakeDead(c) => c in s.control && s.control[c].Run? && s.reaper != []
  }

  function Granted(s: State, m: int): map<int, Tally>
    requires m in s.tally
  {
    s.tally[m := s.tally[m].(grants := s.tally[m].grants + 1)]
  }

  function Upped(s: State, m: int, handed: bool): map<int, Tally>
    requires m in s.tally
  {
    s.tally[m := s.tally[m].(ups := s.tally[m].ups + 1, grants := s.tally[m].grants + if handed then 1 else 0)]
  }

  function InsertSleeper(q: seq<Sleeper>, x: Sleeper): seq<Sleeper> {
    if q == [] || q[0].at > x.at then [x] + q else [q[0]] + InsertSleeper(q[1..], x)
  }

  /** Serving a request. */
  function Served(s: State, c: int): State
    requires Keys(s) && c in s.control && s.control[c].Doing? && RequestOk(s, s.control[c].request)
  {
    var t := s.control[c].t;
    match s.control[c].request
    case Down(m) =>
      var (sem, got) := AfterRecheck(s.sems[m], t);
      if got then s.(sems := s.sems[m := sem], control := s.control[c := Waking(t, false)], tally := Granted(s, m))
      else s.(sems := s.sems[m := sem], control := s.control[c := Dispatching], place := s.place[t := Waiting(m)])
    case Yield => s.(ready := s.ready + [t], control := s.control[c := Dispatching], place := s.place[t := Ready])
    case Sleep(after) =>
      s.(sleeping := s.sleeping[c := InsertSleeper(s.sleeping[c], Sleeper(t, s.now + after))],
         control := s.control[c := Dispatching], place := s.place[t := Asleep(c)])
    case Stop => s.(reaper := s.reaper + [t], control := s.control[c := ReapUp], place := s.place[t := Reaper])
  }

  function DoSpawn(s: State, t: int): State {
    s.(ready := s.ready + [t], place := s.place[t := Ready])
  }

  function DoTryDown(s: State, c: int, m: int): State
    requires Keys(s) && Enabled(s, TryDown(c, m))
  {
    var (sem, got) := AfterTry(s.sems[m]);
    if got then s.(sems := s.sems[m := sem], tally := Granted(s, m))
    else s.(control := s.control[c := Wants(s.control[c].t, Down(m))])
  }

  function DoWant(s: State, c: int, r: Request): State
    requires Enabled(s, Want(c, r))
  {
    s.(control := s.control[c := Wants(s.control[c].t, r)])
  }

  function DoDetach(s: State, c: int): State
    requires Enabled(s, Detach(c))
  {
    s.(active := s.active[c := None], control := s.control[c := Leaving(s.control[c].t, s.control[c].request)])
  }

  function DoPost(s: State, c: int): State
    requires Enabled(s, Post(c))
  {
    var t := s.control[c].t;
    s.(requests := s.requests[c := Some((t, s.control[c].request))], control := s.control[c := Top], place := s.place[t := Requested(c)])
  }

  /** up by thread t on core c; the taken waiter is in hand until it is on the ready queue. */
  function DoUp(s: State, c: int, m: int): State
    requires Keys(s) && Enabled(s, Up(c, m))
  {
    var (sem, w) := AfterUp(s.sems[m]);
    match w
    case None => s.(sems := s.sems[m := sem], tally := Upped(s, m, false))
    case Some(u) =>
      s.(sems := s.sems[m := sem], tally := Upped(s, m, true), control := s.control[c := UpHand(s.control[c].t, u)],
         place := s.place[u := InHand(c)])
  }

  /** The core puts the thread in its hand on the ready queue and goes on as k. */
  function PutReady(s: State, c: int, w: int, k: Control): State {
    s.(ready := s.ready + [w], control := s.control[c := k], place := s.place[w := Ready])
  }

  function DoWakeTake(s: State, c: int): State
    requires Enabled(s, WakeTake(c))
  {
    var u := s.sleeping[c][0].t;
    s.(sleeping := s.sleeping[c := s.sleeping[c][1..]], control := s.control[c := Waking(u, s.control[c].Top?)], place := s.place[u := InHand(c)])
  }

  function DoTakeRequest(s: State, c: int): State
    requires Enabled(s, TakeRequest(c))
  {
    var (t, r) := s.requests[c].value;
    s.(requests := s.requests[c := None], control := s.control[c := Doing(t, r)], place := s.place[t := InHand(c)])
  }

  /** The up inside the helper's reaper_queue->add. */
  function DoReapUp(s: State, c: int): State
    requires Keys(s)
  {
    var (sem, w) := AfterUp(s.sems[REAPER]);
    match w
    case None => s.(sems := s.sems[REAPER := sem], tally := Upped(s, REAPER, false), control := s.control[c := Dispatching])
    case Some(u) =>
      s.(sems := s.sems[REAPER := sem], tally := Upped(s, REAPER, true), control := s.control[c := Waking(u, false)],
         place := s.place[u := InHand(c)])
  }

  function DoChoose(s: State, c: int): State
    requires s.ready != []
  {
    s.(ready := s.ready[1..], control := s.control[c := Chosen(s.ready[0])], place := s.place[s.ready[0] := InHand(c)])
  }

  function DoActivate(s: State, c: int): State
    requires Enabled(s, Activate(c))
  {
    var t := s.control[c].t;
    s.(active := s.active[c := Some(t)], control := s.control[c := Run(t)], place := s.place[t := Running(c)])
  }

  function DoCollect(s: State): State {
    s.(reaper := [], collected := s.collected + (set t | t in s.reaper),
       place := map t | t in s.place :: if t in s.reaper then Collected else s.place[t])
  }

  function DoBury(s: State, t: int): State {
    s.(collected := s.collected - {t}, dead := s.dead + {t}, place := s.place[t := Dead])
  }

  function DoReturn(s: State, t: int): State {
    s.(collected := s.collected - {t}, reaper := s.reaper + [t], place := s.place[t := Reaper])
  }

  function DoTakeDead(s: State): State
    requires s.reaper != []
  {
    s.(reaper := s.reaper[1..], dead := s.dead + {s.reaper[0]}, place := s.place[s.reaper[0] := Dead])
  }

  function Next(s: State, step: Step): State
    requires Keys(s) && Enabled(s, step) && (step.Serve? ==> RequestOk(s, s.control[step.core].request))
  {
    match step
    case Tick => s.(now := s.now + 1)
    case Spawn(_, t) => DoSpawn(s, t)
    case TryDown(c, m) => DoTryDown(s, c, m)
    case Want(c, r) => DoWant(s, c, r)
    case Detach(c) => DoDetach(s, c)
    case Post(c) => DoPost(s, c)
    case Up(c, m) => DoUp(s, c, m)
    case AddWoken(c) => PutReady(s, c, s.control[c].woken, Run(s.control[c].t))
    case WakeTake(c) => DoWakeTake(s, c)
    case AddReady(c) => PutReady(s, c, s.control[c].woken, if s.control[c].top then Top else Dispatching)
    case TakeRequest(c) => DoTakeRequest(s, c)
    case NoRequest(c) => s.(control := s.control[c := Dispatching])
    case Serve(c) => Served(s, c)
    case ReapUpStep(c) => DoReapUp(s, c)
    case Choose(c) => DoChoose(s, c)
    case Activate(c) => DoActivate(s, c)
    case Collect(_) => DoCollect(s)
    case Bury(_, t) => DoBury(s, t)
    case Return(_, t) => DoReturn(s, t)
    case TakeDead(_) => DoTakeDead(s)
  }
}
