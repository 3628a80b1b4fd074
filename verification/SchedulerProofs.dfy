/** Every step of the scheduler keeps the invariant. */
module SchedulerProofs {
  import opened Basics
  import opened Semaphores
  import opened Scheduler

  // ---------- one thread moves ----------

  /** In s' thread t is at p and nowhere else, and everybody else sits where they did. */
  ghost predicate Moved(s: State, s': State, t: int, p: Place) {
    forall u, q {:trigger Sits(s', u, q)} :: Sits(s', u, q) <==> if u == t then q == p else Sits(s, u, q)
  }

  lemma Move(s: State, s': State, t: int, p: Place)
    requires Placed(s) && s'.place == s.place[t := p] && Moved(s, s', t, p)
    ensures Placed(s')
  {
    hide Sits;
    forall u {:trigger s'.place[u]} | u in s'.place
      ensures Sits(s', u, s'.place[u])
    {
      if u != t { assert Sits(s, u, s.place[u]); }
    }
  }

  lemma Stay(s: State, s': State)
    requires Placed(s) && s'.place == s.place && (forall u, q {:trigger Sits(s', u, q)} :: Sits(s', u, q) <==> Sits(s, u, q))
    ensures Placed(s')
  {
    hide Sits;
    forall u {:trigger s'.place[u]} | u in s'.place
      ensures Sits(s', u, s'.place[u])
    {
      assert Sits(s, u, s.place[u]);
    }
  }

  /** A thread is nowhere but in its place. */
  lemma NotElsewhere(s: State, t: int, p: Place)
    requires Placed(s) && Sits(s, t, p)
    ensures t in s.place && s.place[t] == p
    ensures forall q {:trigger Sits(s, t, q)} :: q != p ==> !Sits(s, t, q)
  {
    hide Sits;
  }

  // ---------- cores, semaphores and queues ----------

  /** Cores other than c are as they were. */
  ghost predicate OtherCores(s: State, s': State, c: int) {
    && s'.sems.Keys == s.sems.Keys
    && s'.control.Keys == s.control.Keys && (forall d :: d in s.control && d != c ==> s'.control[d] == s.control[d])
    && s'.active.Keys == s.active.Keys && (forall d :: d in s.active && d != c ==> s'.active[d] == s.active[d])
    && s'.requests.Keys == s.requests.Keys && (forall d :: d in s.requests && d != c ==> s'.requests[d] == s.requests[d])
  }

  lemma CoresKeep(s: State, s': State, c: int)
    requires Keys(s) && Keys(s') && Cores(s) && OtherCores(s, s', c) && (c in s.control ==> CoreOk(s', c))
    ensures Cores(s')
  {
    forall d {:trigger CoreOk(s', d)} | d in s'.control
      ensures CoreOk(s', d)
    {
      assert CoreOk(s, d);
    }
  }

  lemma CoresSame(s: State, s': State)
    requires Keys(s) && Keys(s') && Cores(s) && s'.control == s.control && s'.active == s.active && s'.requests == s.requests
    requires s'.sems.Keys == s.sems.Keys
    ensures Cores(s')
  {
    forall d {:trigger CoreOk(s', d)} | d in s'.control
      ensures CoreOk(s', d)
    {
      assert CoreOk(s, d);
    }
  }

  lemma SemsKeep(s: State, s': State, m: int)
    requires Keys(s) && Keys(s') && Sems(s) && s'.sems.Keys == s.sems.Keys && (m in s.sems ==> SemOk(s', m))
    requires forall k :: k in s.sems && k != m ==> s'.sems[k] == s.sems[k] && s'.tally[k] == s.tally[k]
    ensures Sems(s')
  {
    forall k {:trigger SemOk(s', k)} | k in s'.sems
      ensures SemOk(s', k)
    {
      assert SemOk(s, k);
    }
  }

  lemma SemsSame(s: State, s': State)
    requires Keys(s) && Keys(s') && Sems(s) && s'.sems == s.sems && s'.tally == s.tally
    ensures Sems(s')
  {
    forall k {:trigger SemOk(s', k)} | k in s'.sems
      ensures SemOk(s', k)
    {
      assert SemOk(s, k);
    }
  }

  lemma DistinctAdd(q: seq<int>, t: int)
    requires Distinct(q) && t !in q
    ensures Distinct(q + [t])
  {
  }

  lemma DistinctTail(q: seq<int>)
    requires Distinct(q) && q != []
    ensures Distinct(q[1..]) && q[0] !in q[1..]
    ensures forall u :: u in q <==> u == q[0] || u in q[1..]
  {
    assert q == [q[0]] + q[1..];
  }

  // ---------- onto the ready queue ----------

  lemma SpawnKeeps(s: State, c: int, t: int)
    requires Inv(s) && Enabled(s, Spawn(c, t))
    ensures Inv(DoSpawn(s, t))
  {
    hide Cores, Sems, Sleeps;
    var s' := DoSpawn(s, t);
    assert !Sits(s, t, Ready);
    DistinctAdd(s.ready, t);
    forall u, q {:trigger Sits(s', u, q)}
      ensures Sits(s', u, q) <==> if u == t then q == Ready else Sits(s, u, q)
    {
      assert !Sits(s, t, q);
    }
    Move(s, s', t, Ready);
    CoresSame(s, s');
    SemsSame(s, s');
    SleepsSame(s, s');
  }

  lemma SleepsSame(s: State, s': State)
    requires Sleeps(s) && s'.sleeping == s.sleeping
    ensures Sleeps(s')
  {
  }

  /** A core that holds w puts it on the ready queue and goes on as k, running the thread it ran before. */
  lemma PutReadyKeeps(s: State, c: int, w: int, k: Control)
    requires Inv(s) && c in s.control && Hand(s.control[c]) == Some(w) && Hand(k) == None && Thread(k) == Thread(s.control[c])
    requires CoreOk(PutReady(s, c, w, k), c)
    ensures Inv(PutReady(s, c, w, k))
  {
    hide Cores, Sems, Sleeps;
    var s' := PutReady(s, c, w, k);
    assert Sits(s, w, InHand(c));
    NotElsewhere(s, w, InHand(c));
    assert !Sits(s, w, Ready);
    DistinctAdd(s.ready, w);
    PutReadyMoves(s, c, w, k);
    Move(s, s', w, Ready);
    CoresKeep(s, s', c);
    SemsSame(s, s');
    SleepsSame(s, s');
  }

  lemma PutReadyMoves(s: State, c: int, w: int, k: Control)
    requires c in s.control && Hand(s.control[c]) == Some(w) && Hand(k) == None && Thread(k) == Thread(s.control[c])
    requires forall q {:trigger Sits(s, w, q)} :: q != InHand(c) ==> !Sits(s, w, q)
    ensures Moved(s, PutReady(s, c, w, k), w, Ready)
  {
    var s' := PutReady(s, c, w, k);
    forall u, q {:trigger Sits(s', u, q)}
      ensures Sits(s', u, q) <==> if u == w then q == Ready else Sits(s, u, q)
    {
      assert u == w && q != InHand(c) ==> !Sits(s, w, q);
    }
  }

  // ---------- steps that move nobody ----------

  /** Core c goes on as k with the same thread and the same hand. */
  lemma GoesOn(s: State, s': State, c: int, k: Control)
    requires Placed(s) && c in s.control && Thread(k) == Thread(s.control[c]) && Hand(k) == Hand(s.control[c])
    requires s' == s.(control := s.control[c := k], active := s'.active, sems := s'.sems, tally := s'.tally)
    requires s'.sems.Keys == s.sems.Keys && forall m :: m in s.sems ==> s'.sems[m].waiting == s.sems[m].waiting
    ensures Placed(s')
  {
    forall u, q {:trigger Sits(s', u, q)}
      ensures Sits(s', u, q) <==> Sits(s, u, q)
    {
    }
    Stay(s, s');
  }

  lemma TryDownKeeps(s: State, c: int, m: int)
    requires Inv(s) && Enabled(s, TryDown(c, m))
    ensures Inv(DoTryDown(s, c, m))
  {
    hide Placed, Sems, Sleeps;
    var s' := DoTryDown(s, c, m);
    SemAt(s, m);
    assert CoreOk(s, c);
    SleepsSame(s, s');
    if s.sems[m].n > 0 {
      GoesOn(s, s', c, s.control[c]);
      SemsKeep(s, s', m);
      CoresSame(s, s');
    } else {
      GoesOn(s, s', c, Wants(s.control[c].t, Down(m)));
      SemsSame(s, s');
      CoresKeep(s, s', c);
    }
  }

  lemma SemAt(s: State, m: int)
    requires Keys(s) && Sems(s) && m in s.sems
    ensures SemOk(s, m)
  {
  }

  lemma WantKeeps(s: State, c: int, r: Request)
    requires Inv(s) && Enabled(s, Want(c, r))
    ensures Inv(DoWant(s, c, r))
  {
    hide Placed, Sems, Sleeps;
    var s' := DoWant(s, c, r);
    assert CoreOk(s, c);
    GoesOn(s, s', c, Wants(s.control[c].t, r));
    SemsSame(s, s');
    SleepsSame(s, s');
    CoresKeep(s, s', c);
  }

  lemma DetachKeeps(s: State, c: int)
    requires Inv(s) && Enabled(s, Detach(c))
    ensures Inv(DoDetach(s, c))
  {
    hide Placed, Sems, Sleeps;
    var s' := DoDetach(s, c);
    assert CoreOk(s, c);
    GoesOn(s, s', c, Leaving(s.control[c].t, s.control[c].request));
    SemsSame(s, s');
    SleepsSame(s, s');
    CoresKeep(s, s', c);
  }

  lemma NoRequestKeeps(s: State, c: int)
    requires Inv(s) && Enabled(s, NoRequest(c))
    ensures Inv(s.(control := s.control[c := Dispatching]))
  {
    hide Placed, Sems, Sleeps;
    var s' := s.(control := s.control[c := Dispatching]);
    assert CoreOk(s, c);
    GoesOn(s, s', c, Dispatching);
    SemsSame(s, s');
    SleepsSame(s, s');
    CoresKeep(s, s', c);
  }

  lemma TickKeeps(s: State)
    requires Inv(s)
    ensures Inv(s.(now := s.now + 1))
  {
    hide Cores, Sems, Sleeps;
    var s' := s.(now := s.now + 1);
    assert forall u, q {:trigger Sits(s', u, q)} :: Sits(s', u, q) <==> Sits(s, u, q);
    Stay(s, s');
    CoresSame(s, s');
    SemsSame(s, s');
    SleepsSame(s, s');
  }

  // ---------- requests ----------

  lemma PostMoves(s: State, c: int)
    requires Placed(s) && Keys(s) && Enabled(s, Post(c)) && s.requests[c].None?
    ensures Placed(DoPost(s, c))
  {
    var s', t := DoPost(s, c), s.control[c].t;
    assert Sits(s, t, Running(c));
    NotElsewhere(s, t, Running(c));
    forall u, q {:trigger Sits(s', u, q)}
      ensures Sits(s', u, q) <==> if u == t then q == Requested(c) else Sits(s, u, q)
    {
      assert q != Running(c) ==> !Sits(s, t, q);
    }
    Move(s, s', t, Requested(c));
  }

  lemma PostKeeps(s: State, c: int)
    requires Inv(s) && Enabled(s, Post(c))
    ensures Inv(DoPost(s, c))
  {
    hide Placed, Sems, Sleeps;
    assert CoreOk(s, c);
    PostMoves(s, c);
    var s' := DoPost(s, c);
    SemsSame(s, s');
    SleepsSame(s, s');
    CoresKeep(s, s', c);
  }

  lemma TakeRequestMoves(s: State, c: int)
    requires Placed(s) && Keys(s) && Enabled(s, TakeRequest(c))
    ensures Placed(DoTakeRequest(s, c))
  {
    var s', t := DoTakeRequest(s, c), s.requests[c].value.0;
    assert Sits(s, t, Requested(c));
    NotElsewhere(s, t, Requested(c));
    forall u, q {:trigger Sits(s', u, q)}
      ensures Sits(s', u, q) <==> if u == t then q == InHand(c) else Sits(s, u, q)
    {
      assert q != Requested(c) ==> !Sits(s, t, q);
    }
    Move(s, s', t, InHand(c));
  }

  lemma TakeRequestKeeps(s: State, c: int)
    requires Inv(s) && Enabled(s, TakeRequest(c))
    ensures Inv(DoTakeRequest(s, c))
  {
    hide Placed, Sems, Sleeps;
    assert CoreOk(s, c);
    TakeRequestMoves(s, c);
    var s' := DoTakeRequest(s, c);
    SemsSame(s, s');
    SleepsSame(s, s');
    CoresKeep(s, s', c);
  }

  // ---------- up ----------

  /** up with a waiter: the waiter moves from the queue to the hand of the core. */
  lemma UpMoves(s: State, s': State, c: int, m: int, k: Control)
    requires Placed(s) && Keys(s) && c in s.control && m in s.sems && Distinct(s.sems[m].waiting) && s.sems[m].waiting != []
    requires Hand(s.control[c]) == None && Thread(k) == Thread(s.control[c]) && Hand(k) == Some(s.sems[m].waiting[0])
    requires s' == s.(sems := s.sems[m := AfterUp(s.sems[m]).0], tally := s'.tally, control := s.control[c := k],
                      place := s.place[s.sems[m].waiting[0] := InHand(c)])
    ensures Placed(s')
  {
    var w := s.sems[m].waiting[0];
    assert Sits(s, w, Waiting(m));
    NotElsewhere(s, w, Waiting(m));
    DistinctTail(s.sems[m].waiting);
    forall u, q {:trigger Sits(s', u, q)}
      ensures Sits(s', u, q) <==> if u == w then q == InHand(c) else Sits(s, u, q)
    {
      assert q != Waiting(m) ==> !Sits(s, w, q);
    }
    Move(s, s', w, InHand(c));
  }

  lemma UpSem(s: State, s': State, m: int)
    requires Keys(s) && Keys(s') && Sems(s) && m in s.sems
    requires s'.sems == s.sems[m := AfterUp(s.sems[m]).0] && s'.tally == Upped(s, m, s.sems[m].waiting != [])
    ensures Sems(s')
  {
    SemAt(s, m);
    if s.sems[m].waiting != [] { DistinctTail(s.sems[m].waiting); }
    SemsKeep(s, s', m);
  }

  lemma UpKeeps(s: State, c: int, m: int)
    requires Inv(s) && Enabled(s, Up(c, m))
    ensures Inv(DoUp(s, c, m))
  {
    hide Placed, Sems, Sleeps, Distinct, Cores;
    var s' := DoUp(s, c, m);
    SemAt(s, m);
    CoreAt(s, c);
    UpSem(s, s', m);
    SleepsSame(s, s');
    if s.sems[m].waiting == [] {
      GoesOn(s, s', c, s.control[c]);
      CoresSame(s, s');
    } else {
      UpMoves(s, s', c, m, UpHand(s.control[c].t, s.sems[m].waiting[0]));
      CoresKeep(s, s', c);
    }
  }

  lemma ReapUpKeeps(s: State, c: int)
    requires Inv(s) && Enabled(s, ReapUpStep(c))
    ensures Inv(DoReapUp(s, c))
  {
    hide Placed, Sems, Sleeps, Distinct, Cores;
    var s' := DoReapUp(s, c);
    SemAt(s, REAPER);
    CoreAt(s, c);
    UpSem(s, s', REAPER);
    SleepsSame(s, s');
    if s.sems[REAPER].waiting == [] {
      GoesOn(s, s', c, Dispatching);
    } else {
      UpMoves(s, s', c, REAPER, Waking(s.sems[REAPER].waiting[0], false));
    }
    CoresKeep(s, s', c);
  }

  // ---------- sleep queues ----------

  lemma {:induction false} InsertMember(q: seq<Sleeper>, x: Sleeper, t: int)
    ensures IsAsleep(InsertSleeper(q, x), t) <==> IsAsleep(q, t) || t == x.t
  {
    var r := InsertSleeper(q, x);
    if q == [] || q[0].at > x.at {
      assert r[0] == x && r[1..] == q;
      AsleepCons(x, q, t);
    } else {
      InsertMember(q[1..], x, t);
      AsleepCons(q[0], InsertSleeper(q[1..], x), t);
      AsleepCons(q[0], q[1..], t);
      assert q == [q[0]] + q[1..];
    }
  }

  lemma AsleepCons(x: Sleeper, q: seq<Sleeper>, t: int)
    ensures IsAsleep([x] + q, t) <==> x.t == t || IsAsleep(q, t)
  {
    var r := [x] + q;
    if IsAsleep(q, t) {
      var i :| 0 <= i < |q| && q[i].t == t;
      assert r[i + 1].t == t;
    }
    assert r[0] == x;
    if IsAsleep(r, t) && x.t != t {
      var i :| 0 <= i < |r| && r[i].t == t;
      assert q[i - 1].t == t;
    }
  }

  /** Every sleeper inserted into keeps its place in the order of time. */
  lemma {:induction false} InsertOk(q: seq<Sleeper>, x: Sleeper)
    requires SleepOk(q) && !IsAsleep(q, x.t)
    ensures SleepOk(InsertSleeper(q, x))
  {
    var r := InsertSleeper(q, x);
    if q == [] || q[0].at > x.at {
      assert forall i :: 0 < i < |r| ==> r[i] == q[i - 1];
    } else {
      assert q == [q[0]] + q[1..];
      AsleepCons(q[0], q[1..], x.t);
      InsertOk(q[1..], x);
      FirstBefore(q, x);
    }
  }

  lemma FirstBefore(q: seq<Sleeper>, x: Sleeper)
    requires SleepOk(q) && q != [] && q[0].at <= x.at && q[0].t != x.t && SleepOk(InsertSleeper(q[1..], x))
    ensures SleepOk([q[0]] + InsertSleeper(q[1..], x))
  {
    var tail := InsertSleeper(q[1..], x);
    forall i | 0 <= i < |tail|
      ensures tail[i].t != q[0].t && q[0].at <= tail[i].at
    {
      InsertFrom(q[1..], x, i);
    }
    var r := [q[0]] + tail;
    assert forall i :: 0 < i < |r| ==> r[i] == tail[i - 1];
  }

  lemma {:induction false} InsertFrom(q: seq<Sleeper>, x: Sleeper, i: nat)
    requires i < |InsertSleeper(q, x)|
    ensures InsertSleeper(q, x)[i] == x || InsertSleeper(q, x)[i] in q
  {
    if !(q == [] || q[0].at > x.at) && i > 0 { InsertFrom(q[1..], x, i - 1); }
  }

  lemma TailOk(q: seq<Sleeper>)
    requires SleepOk(q) && q != []
    ensures SleepOk(q[1..]) && !IsAsleep(q[1..], q[0].t)
    ensures forall t {:trigger IsAsleep(q, t)} :: IsAsleep(q, t) <==> t == q[0].t || IsAsleep(q[1..], t)
  {
    assert q == [q[0]] + q[1..];
    forall t {:trigger IsAsleep(q, t)}
      ensures IsAsleep(q, t) <==> t == q[0].t || IsAsleep(q[1..], t)
    {
      AsleepCons(q[0], q[1..], t);
    }
  }

  lemma SleepsKeep(s: State, s': State, c: int)
    requires Sleeps(s) && c in s'.sleeping && s'.sleeping == s.sleeping[c := s'.sleeping[c]] && SleepOk(s'.sleeping[c])
    ensures Sleeps(s')
  {
  }

  lemma WakeTakeMoves(s: State, c: int)
    requires Placed(s) && Keys(s) && Enabled(s, WakeTake(c)) && SleepOk(s.sleeping[c])
    ensures Placed(DoWakeTake(s, c))
  {
    hide IsAsleep;
    var s', w := DoWakeTake(s, c), s.sleeping[c][0].t;
    TailOk(s.sleeping[c]);
    assert IsAsleep(s.sleeping[c], w);
    assert Sits(s, w, Asleep(c));
    NotElsewhere(s, w, Asleep(c));
    forall u, q {:trigger Sits(s', u, q)}
      ensures Sits(s', u, q) <==> if u == w then q == InHand(c) else Sits(s, u, q)
    {
      assert q != Asleep(c) ==> !Sits(s, w, q);
      assert IsAsleep(s.sleeping[c], u) <==> u == w || IsAsleep(s.sleeping[c][1..], u);
    }
    Move(s, s', w, InHand(c));
  }

  lemma WakeTakeKeeps(s: State, c: int)
    requires Inv(s) && Enabled(s, WakeTake(c))
    ensures Inv(DoWakeTake(s, c))
  {
    hide Placed, Sems;
    assert SleepOk(s.sleeping[c]);
    assert CoreOk(s, c);
    WakeTakeMoves(s, c);
    TailOk(s.sleeping[c]);
    var s' := DoWakeTake(s, c);
    SemsSame(s, s');
    SleepsKeep(s, s', c);
    CoresKeep(s, s', c);
  }

  // ---------- serving requests ----------

  lemma ServeDownKeeps(s: State, c: int)
    requires Inv(s) && Enabled(s, Serve(c)) && s.control[c].request.Down? && RequestOk(s, s.control[c].request)
    ensures Inv(Served(s, c))
  {
    hide Placed, Sems, Sleeps;
    var s', m, t := Served(s, c), s.control[c].request.sem, s.control[c].t;
    SemAt(s, m);
    assert CoreOk(s, c);
    SleepsSame(s, s');
    if s.sems[m].n > 0 {
      GoesOn(s, s', c, Waking(t, false));
    } else {
      JoinMoves(s, s', c, m);
      JoinDistinct(s, c, m);
    }
    SemsKeep(s, s', m);
    CoresKeep(s, s', c);
  }

  lemma JoinDistinct(s: State, c: int, m: int)
    requires Placed(s) && Enabled(s, Serve(c)) && m in s.sems && Distinct(s.sems[m].waiting)
    ensures Distinct(s.sems[m].waiting + [s.control[c].t])
  {
    var t := s.control[c].t;
    assert Sits(s, t, InHand(c));
    assert !Sits(s, t, Waiting(m));
    DistinctAdd(s.sems[m].waiting, t);
  }

  lemma JoinMoves(s: State, s': State, c: int, m: int)
    requires Placed(s) && Keys(s) && Enabled(s, Serve(c)) && m in s.sems
    requires s' == s.(sems := s.sems[m := s.sems[m].(waiting := s.sems[m].waiting + [s.control[c].t])],
                      control := s.control[c := Dispatching], place := s.place[s.control[c].t := Waiting(m)])
    ensures Placed(s')
  {
    var t := s.control[c].t;
    assert Sits(s, t, InHand(c));
    NotElsewhere(s, t, InHand(c));
    forall u, q {:trigger Sits(s', u, q)}
      ensures Sits(s', u, q) <==> if u == t then q == Waiting(m) else Sits(s, u, q)
    {
      assert q != InHand(c) ==> !Sits(s, t, q);
    }
    Move(s, s', t, Waiting(m));
  }

  lemma SleepMoves(s: State, c: int)
    requires Placed(s) && Keys(s) && Enabled(s, Serve(c)) && s.control[c].request.Sleep?
    ensures Placed(Served(s, c)) && !IsAsleep(s.sleeping[c], s.control[c].t)
  {
    hide IsAsleep, InsertSleeper;
    var s', t := Served(s, c), s.control[c].t;
    var x := Sleeper(t, s.now + s.control[c].request.after);
    assert Sits(s, t, InHand(c));
    NotElsewhere(s, t, InHand(c));
    assert !Sits(s, t, Asleep(c));
    forall u, q {:trigger Sits(s', u, q)}
      ensures Sits(s', u, q) <==> if u == t then q == Asleep(c) else Sits(s, u, q)
    {
      assert q != InHand(c) ==> !Sits(s, t, q);
      InsertMember(s.sleeping[c], x, u);
    }
    Move(s, s', t, Asleep(c));
  }

  lemma ServeSleepKeeps(s: State, c: int)
    requires Inv(s) && Enabled(s, Serve(c)) && s.control[c].request.Sleep?
    ensures Inv(Served(s, c))
  {
    hide Placed, Sems, InsertSleeper;
    var s', t := Served(s, c), s.control[c].t;
    assert SleepOk(s.sleeping[c]);
    assert CoreOk(s, c);
    SleepMoves(s, c);
    InsertOk(s.sleeping[c], Sleeper(t, s.now + s.control[c].request.after));
    SemsSame(s, s');
    SleepsKeep(s, s', c);
    CoresKeep(s, s', c);
  }

  lemma ServeStopKeeps(s: State, c: int)
    requires Inv(s) && Enabled(s, Serve(c)) && s.control[c].request.Stop?
    ensures Inv(Served(s, c))
  {
    hide Cores, Sems, Sleeps;
    var s', t := Served(s, c), s.control[c].t;
    assert Sits(s, t, InHand(c));
    NotElsewhere(s, t, InHand(c));
    assert !Sits(s, t, Reaper);
    DistinctAdd(s.reaper, t);
    forall u, q {:trigger Sits(s', u, q)}
      ensures Sits(s', u, q) <==> if u == t then q == Reaper else Sits(s, u, q)
    {
      assert q != InHand(c) ==> !Sits(s, t, q);
    }
    Move(s, s', t, Reaper);
    SemsSame(s, s');
    SleepsSame(s, s');
    CoreAt(s, c);
    CoresKeep(s, s', c);
  }

  lemma CoreAt(s: State, c: int)
    requires Keys(s) && Cores(s) && c in s.control
    ensures CoreOk(s, c)
  {
  }

  lemma ServeKeeps(s: State, c: int)
    requires Inv(s) && Enabled(s, Serve(c))
    ensures RequestOk(s, s.control[c].request) && Inv(Served(s, c))
  {
    hide Placed, Sems, Sleeps, Distinct, Cores;
    CoreAt(s, c);
    match s.control[c].request
    case Down(_) => ServeDownKeeps(s, c);
    case Sleep(_) => ServeSleepKeeps(s, c);
    case Stop => ServeStopKeeps(s, c);
    case Yield => PutReadyKeeps(s, c, s.control[c].t, Dispatching);
  }

  // ---------- dispatch ----------

  lemma ChooseMoves(s: State, c: int)
    requires Placed(s) && Keys(s) && Enabled(s, Choose(c)) && Distinct(s.ready)
    ensures Placed(DoChoose(s, c))
  {
    var s', t := DoChoose(s, c), s.ready[0];
    DistinctTail(s.ready);
    assert Sits(s, t, Ready);
    NotElsewhere(s, t, Ready);
    forall u, q {:trigger Sits(s', u, q)}
      ensures Sits(s', u, q) <==> if u == t then q == InHand(c) else Sits(s, u, q)
    {
      assert q != Ready ==> !Sits(s, t, q);
    }
    Move(s, s', t, InHand(c));
  }

  lemma ChooseKeeps(s: State, c: int)
    requires Inv(s) && Enabled(s, Choose(c))
    ensures Inv(DoChoose(s, c))
  {
    hide Placed, Sems, Sleeps, Cores, Distinct;
    var s' := DoChoose(s, c);
    CoreAt(s, c);
    ChooseMoves(s, c);
    DistinctTail(s.ready);
    SemsSame(s, s');
    SleepsSame(s, s');
    CoresKeep(s, s', c);
  }

  lemma ActivateMoves(s: State, c: int)
    requires Placed(s) && Keys(s) && Enabled(s, Activate(c))
    ensures Placed(DoActivate(s, c))
  {
    var s', t := DoActivate(s, c), s.control[c].t;
    assert Sits(s, t, InHand(c));
    NotElsewhere(s, t, InHand(c));
    forall u, q {:trigger Sits(s', u, q)}
      ensures Sits(s', u, q) <==> if u == t then q == Running(c) else Sits(s, u, q)
    {
      assert q != InHand(c) ==> !Sits(s, t, q);
    }
    Move(s, s', t, Running(c));
  }

  lemma ActivateKeeps(s: State, c: int)
    requires Inv(s) && Enabled(s, Activate(c))
    ensures Inv(DoActivate(s, c))
  {
    hide Placed, Sems, Sleeps, Cores, Distinct;
    var s' := DoActivate(s, c);
    CoreAt(s, c);
    ActivateMoves(s, c);
    SemsSame(s, s');
    SleepsSame(s, s');
    CoresKeep(s, s', c);
  }

  // ---------- finished threads ----------

  lemma CollectKeeps(s: State)
    requires Inv(s)
    ensures Inv(DoCollect(s))
  {
    hide Sems, Sleeps, Cores;
    var s' := DoCollect(s);
    forall u, q {:trigger Sits(s', u, q)}
      ensures Sits(s', u, q) <==> (Sits(s, u, q) && q != Reaper) || (q == Collected && Sits(s, u, Reaper))
    {
    }
    CollectPlaced(s, s');
    CoresSame(s, s');
    SemsSame(s, s');
    SleepsSame(s, s');
  }

  lemma CollectPlaced(s: State, s': State)
    requires Placed(s)
    requires forall u, q {:trigger Sits(s', u, q)} :: Sits(s', u, q) <==> (Sits(s, u, q) && q != Reaper) || (q == Place.Collected && Sits(s, u, Reaper))
    requires s'.place.Keys == s.place.Keys
    requires forall t :: t in s.place ==> s'.place[t] == if Sits(s, t, Reaper) then Place.Collected else s.place[t]
    ensures Placed(s')
  {
    hide Sits;
    forall u, q {:trigger Sits(s', u, q)} | Sits(s', u, q)
      ensures u in s'.place && s'.place[u] == q
    {
      assert Sits(s, u, q) ==> u in s.place && s.place[u] == q;
      assert Sits(s, u, Reaper) ==> u in s.place && s.place[u] == Reaper;
    }
    forall u {:trigger s'.place[u]} | u in s'.place
      ensures Sits(s', u, s'.place[u])
    {
      assert Sits(s, u, s.place[u]);
    }
  }

  lemma BuryKeeps(s: State, c: int, t: int)
    requires Inv(s) && Enabled(s, Bury(c, t))
    ensures Inv(DoBury(s, t))
  {
    hide Sems, Sleeps, Cores;
    var s' := DoBury(s, t);
    assert Sits(s, t, Place.Collected);
    NotElsewhere(s, t, Place.Collected);
    forall u, q {:trigger Sits(s', u, q)}
      ensures Sits(s', u, q) <==> if u == t then q == Dead else Sits(s, u, q)
    {
      assert q != Place.Collected ==> !Sits(s, t, q);
    }
    Move(s, s', t, Dead);
    CoresSame(s, s');
    SemsSame(s, s');
    SleepsSame(s, s');
  }

  lemma ReturnKeeps(s: State, c: int, t: int)
    requires Inv(s) && Enabled(s, Return(c, t))
    ensures Inv(DoReturn(s, t))
  {
    hide Sems, Sleeps, Cores;
    var s' := DoReturn(s, t);
    assert Sits(s, t, Place.Collected);
    NotElsewhere(s, t, Place.Collected);
    assert !Sits(s, t, Reaper);
    DistinctAdd(s.reaper, t);
    forall u, q {:trigger Sits(s', u, q)}
      ensures Sits(s', u, q) <==> if u == t then q == Reaper else Sits(s, u, q)
    {
      assert q != Place.Collected ==> !Sits(s, t, q);
    }
    Move(s, s', t, Reaper);
    CoresSame(s, s');
    SemsSame(s, s');
    SleepsSame(s, s');
  }

  lemma TakeDeadKeeps(s: State, c: int)
    requires Inv(s) && Enabled(s, TakeDead(c))
    ensures Inv(DoTakeDead(s))
  {
    hide Sems, Sleeps, Cores, Distinct;
    var s', t := DoTakeDead(s), s.reaper[0];
    DistinctTail(s.reaper);
    assert Sits(s, t, Reaper);
    NotElsewhere(s, t, Reaper);
    forall u, q {:trigger Sits(s', u, q)}
      ensures Sits(s', u, q) <==> if u == t then q == Dead else Sits(s, u, q)
    {
      assert q != Reaper ==> !Sits(s, t, q);
    }
    Move(s, s', t, Dead);
    CoresSame(s, s');
    SemsSame(s, s');
    SleepsSame(s, s');
  }

  // ---------- every step ----------

  lemma KeysOf(s: State)
    requires Inv(s)
    ensures Keys(s)
  {
  }

  lemma AddWokenKeeps(s: State, c: int)
    requires Inv(s) && Enabled(s, AddWoken(c))
    ensures Inv(PutReady(s, c, s.control[c].woken, Run(s.control[c].t)))
  {
    hide Placed, Sems, Sleeps, Cores, Distinct;
    CoreAt(s, c);
    PutReadyKeeps(s, c, s.control[c].woken, Run(s.control[c].t));
  }

  lemma AddReadyKeeps(s: State, c: int)
    requires Inv(s) && Enabled(s, AddReady(c))
    ensures Inv(PutReady(s, c, s.control[c].woken, if s.control[c].top then Top else Dispatching))
  {
    hide Placed, Sems, Sleeps, Cores, Distinct;
    CoreAt(s, c);
    PutReadyKeeps(s, c, s.control[c].woken, if s.control[c].top then Top else Dispatching);
  }

  lemma ThreadStepKeeps(s: State, step: Step)
    requires Inv(s) && Enabled(s, step)
    requires step.Spawn? || step.TryDown? || step.Want? || step.Detach? || step.Post? || step.Up? || step.AddWoken?
    ensures Keys(s) && Inv(Next(s, step))
  {
    hide Inv, Enabled, Keys, DoSpawn, DoTryDown, DoWant, DoDetach, DoPost, DoUp, PutReady;
    KeysOf(s);
    match step
    case Spawn(c, t) => SpawnKeeps(s, c, t);
    case TryDown(c, m) => TryDownKeeps(s, c, m);
    case Want(c, r) => WantKeeps(s, c, r);
    case Detach(c) => DetachKeeps(s, c);
    case Post(c) => PostKeeps(s, c);
    case Up(c, m) => UpKeeps(s, c, m);
    case AddWoken(c) => AddWokenKeeps(s, c);
  }

  lemma HelperStepKeeps(s: State, step: Step)
    requires Inv(s) && Enabled(s, step)
    requires step.WakeTake? || step.AddReady? || step.TakeRequest? || step.NoRequest? || step.Serve? || step.ReapUpStep? || step.Choose? || step.Activate?
    ensures Keys(s) && (step.Serve? ==> RequestOk(s, s.control[step.core].request))
    ensures Inv(Next(s, step))
  {
    hide Inv, Enabled, Keys, DoWakeTake, DoTakeRequest, Served, DoReapUp, DoChoose, DoActivate, PutReady;
    KeysOf(s);
    match step
    case WakeTake(c) => WakeTakeKeeps(s, c);
    case AddReady(c) => AddReadyKeeps(s, c);
    case TakeRequest(c) => TakeRequestKeeps(s, c);
    case NoRequest(c) => NoRequestKeeps(s, c);
    case Serve(c) => ServeKeeps(s, c);
    case ReapUpStep(c) => ReapUpKeeps(s, c);
    case Choose(c) => ChooseKeeps(s, c);
    case Activate(c) => ActivateKeeps(s, c);
  }

  lemma ReaperStepKeeps(s: State, step: Step)
    requires Inv(s) && Enabled(s, step) && (step.Tick? || step.Collect? || step.Bury? || step.Return? || step.TakeDead?)
    ensures Keys(s) && Inv(Next(s, step))
  {
    hide Inv, Enabled, Keys, DoCollect, DoBury, DoReturn, DoTakeDead;
    KeysOf(s);
    match step
    case Tick => TickKeeps(s);
    case Collect(_) => CollectKeeps(s);
    case Bury(c, t) => BuryKeeps(s, c, t);
    case Return(c, t) => ReturnKeeps(s, c, t);
    case TakeDead(c) => TakeDeadKeeps(s, c);
  }

  lemma StepKeeps(s: State, step: Step)
    requires Inv(s) && Enabled(s, step)
    ensures Keys(s) && (step.Serve? ==> RequestOk(s, s.control[step.core].request))
    ensures Inv(Next(s, step))
  {
    hide Inv, Enabled, Next, Keys;
    match step {
      case Tick | Collect(_) | Bury(_, _) | Return(_, _) | TakeDead(_) => ReaperStepKeeps(s, step);
      case Spawn(_, _) | TryDown(_, _) | Want(_, _) | Detach(_) | Post(_) | Up(_, _) | AddWoken(_) => ThreadStepKeeps(s, step);
      case _ => HelperStepKeeps(s, step);
    }
  }
}
