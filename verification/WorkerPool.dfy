/** lib/fuse_loop_mt.c: the pool of worker threads. */
module WorkerPool {
  import opened Options
  import opened Sequences

  type Tid = nat

  /** The part of struct fuse_mt that its lock protects; the list in the order of the ring. */
  datatype Shared = Shared(list: seq<Tid>, avail: int, workers: int, maxIdle: int, exit: bool)

  /** fuse_loop_start_thread when the thread t could be created. */
  function Started(m: Shared, t: Tid): Shared {
    m.(list := m.list + [t], avail := m.avail + 1, workers := m.workers + 1)
  }

  /** The section after a request was received: a worker that is about to be busy with
      anything but a FORGET is no longer available, and the last one calls for another. */
  function Took(m: Shared, forget: bool, spawn: Option<Tid>): Shared {
    var a := if forget then m else m.(avail := m.avail - 1);
    if Spawns(m, forget) && spawn.Some? then Started(a, spawn.value) else a
  }

  predicate Spawns(m: Shared, forget: bool) {
    m.avail == if forget then 0 else 1
  }

  datatype After = GoesOn | Returns | Detaches

  /** The section after a request was processed: a worker too many takes itself out. */
  function Finished(m: Shared, t: Tid, forget: bool): (r: (Shared, After)) {
    var a := if forget then m else m.(avail := m.avail + 1);
    if a.avail > a.maxIdle then
      if a.exit then (a, Returns)
      else (a.(list := Remove(a.list, t), avail := a.avail - 1, workers := a.workers - 1), Detaches)
    else (a, GoesOn)
  }

  // ---- the pool as a machine of interleaved steps ----

  datatype Phase = AtLoop | InReceive | Busy(forget: bool) | Ended

  /** stopped is the session's exit flag, asleep whether main waits for mt.finish, posts its
      value; the last three are who was ever created, who detached itself, and who was joined. */
  datatype Pool = Pool(m: Shared, phase: map<Tid, Phase>, stopped: bool, asleep: bool, posts: nat,
                       created: set<Tid>, detached: set<Tid>, joined: set<Tid>)

  datatype Event =
    | Enter(t: Tid)                                        // the test at the head of the loop
    | Interrupted(t: Tid)                                  // receive returned -EINTR
    | Fail(t: Tid)                                         // receive returned 0 or another error
    | Cancelled(t: Tid)                                    // pthread_cancel, in receive
    | Take(t: Tid, forget: bool, spawn: Option<Tid>)       // spawn: what pthread_create would give
    | Finish(t: Tid)
    | Stop                                                 // someone ends the session
    | Sleep                                                // main: sem_wait
    | Wake                                                 // it returns because of a post
    | Signal                                               // or because of a signal
    | Exit                                                 // main: cancels all and sets exit
    | Join                                                 // main: joins the first of the ring

  predicate In(p: Pool, t: Tid, f: Phase) { t in p.m.list && t in p.phase && p.phase[t] == f }

  predicate Enabled(p: Pool, e: Event) {
    match e
    case Enter(t) => In(p, t, AtLoop)
    case Interrupted(t) => In(p, t, InReceive)
    case Fail(t) => In(p, t, InReceive)
    case Cancelled(t) => In(p, t, InReceive) && p.m.exit
    case Take(t, _, spawn) => In(p, t, InReceive) && (spawn.Some? ==> spawn.value !in p.created)
    case Finish(t) => t in p.m.list && t in p.phase && p.phase[t].Busy?
    case Stop => !p.stopped
    case Sleep => !p.stopped && !p.asleep
    case Wake => p.asleep && p.posts > 0
    case Signal => p.asleep
    case Exit => p.stopped && !p.m.exit && !p.asleep
    case Join => p.m.exit && p.m.list != [] && In(p, p.m.list[0], Ended)
  }

  function Set(p: Pool, t: Tid, f: Phase): Pool { p.(phase := p.phase[t := f]) }

  function Next(p: Pool, e: Event): Pool
    requires Enabled(p, e)
  {
    match e
    case Enter(t) => if p.stopped then Set(p, t, Ended).(posts := p.posts + 1) else Set(p, t, InReceive)
    case Interrupted(t) => Set(p, t, AtLoop)
    case Fail(t) => Set(p, t, Ended).(stopped := true, posts := p.posts + 1)
    case Cancelled(t) => Set(p, t, Ended)
    case Take(t, forget, spawn) =>
      if p.m.exit then Set(p, t, Ended) else
        var q := Set(p, t, Busy(forget)).(m := Took(p.m, forget, spawn));
        if !Spawns(p.m, forget) || spawn.None? then q else
          Set(q, spawn.value, AtLoop).(created := p.created + {spawn.value})
    case Finish(t) =>
      var (m, a) := Finished(p.m, t, p.phase[t].forget);
      match a {
        case GoesOn => Set(p, t, AtLoop).(m := m)
        case Returns => Set(p, t, Ended).(m := m)
        case Detaches => Set(p, t, Ended).(m := m, detached := p.detached + {t})
      }
    case Stop => p.(stopped := true)
    case Sleep => p.(asleep := true)
    case Wake => p.(asleep := false, posts := p.posts - 1)
    case Signal => p.(asleep := false)
    case Exit => p.(m := p.m.(exit := true))
    case Join => p.(m := p.m.(list := p.m.list[1..]), joined := p.joined + {p.m.list[0]})
  }

  predicate Trace(p: Pool, es: seq<Event>, q: Pool)
    decreases |es|
  {
    if es == [] then p == q else Enabled(p, es[0]) && Trace(Next(p, es[0]), es[1..], q)
  }

  /** fuse_session_loop_mt_32 after its first worker was started. */
  function Initial(maxIdle: int, t: Tid): Pool {
    Pool(Started(Shared([], 0, 0, maxIdle, false), t), map[t := AtLoop], false, false, 0, {t}, {}, {})
  }

  // ---- what every step keeps ----

  function Elements(l: seq<Tid>): set<Tid> { set t | t in l }

  /** Workers of the list that are busy with something else than a FORGET. */
  function BusyCount(l: seq<Tid>, phase: map<Tid, Phase>): nat {
    if l == [] then 0
    else (if l[0] in phase && phase[l[0]] == Busy(false) then 1 else 0) + BusyCount(l[1..], phase)
  }

  /** Every worker ever created is in exactly one place: in the ring, detached, or joined. */
  ghost predicate Accounted(p: Pool) {
    && Distinct(p.m.list)
    && Elements(p.m.list) !! p.detached && Elements(p.m.list) !! p.joined && p.detached !! p.joined
    && p.created == Elements(p.m.list) + p.detached + p.joined
    && (forall t :: t in p.m.list ==> t in p.phase)
  }

  /** Whoever has left the loop has posted, and main does not sleep on after that. */
  ghost predicate Posted(p: Pool) {
    forall t :: t in p.m.list && t in p.phase && p.phase[t] == Ended ==> p.stopped && (p.asleep ==> p.posts > 0)
  }

  ghost predicate Inv(p: Pool) {
    && Accounted(p)
    && (p.m.exit ==> p.stopped && !p.asleep)
    && (!p.m.exit ==> Posted(p))
    && (!p.m.exit ==> p.joined == {} && p.m.workers == |p.m.list|)
    && (!p.m.exit ==> p.m.avail == |p.m.list| - BusyCount(p.m.list, p.phase))
  }

  lemma {:induction false} BusyFrame(l: seq<Tid>, t: Tid, f: Phase, phase: map<Tid, Phase>)
    requires t !in l
    ensures BusyCount(l, phase[t := f]) == BusyCount(l, phase)
  {
    if l != [] { BusyFrame(l[1..], t, f, phase); }
  }

  /** A worker's change of phase shows in the count once. */
  lemma {:induction false} BusyChange(l: seq<Tid>, t: Tid, f: Phase, phase: map<Tid, Phase>)
    requires Distinct(l) && t in l && t in phase
    ensures BusyCount(l, phase[t := f]) ==
            BusyCount(l, phase) + (if f == Busy(false) then 1 else 0) - (if phase[t] == Busy(false) then 1 else 0)
  {
    if l[0] == t {
      assert t !in l[1..];
      BusyFrame(l[1..], t, f, phase);
    } else {
      BusyChange(l[1..], t, f, phase);
    }
  }

  lemma {:induction false} BusyRemove(l: seq<Tid>, t: Tid, phase: map<Tid, Phase>)
    requires Distinct(l) && t in l
    ensures BusyCount(Remove(l, t), phase) ==
            BusyCount(l, phase) - (if t in phase && phase[t] == Busy(false) then 1 else 0)
  {
    if l[0] != t {
      BusyRemove(l[1..], t, phase);
      assert ([l[0]] + Remove(l[1..], t))[1..] == Remove(l[1..], t);
    }
  }

  lemma {:induction false} BusyAppend(l: seq<Tid>, t: Tid, phase: map<Tid, Phase>)
    ensures BusyCount(l + [t], phase) == BusyCount(l, phase) + (if t in phase && phase[t] == Busy(false) then 1 else 0)
  {
    if l == [] { assert [t][1..] == []; }
    else {
      BusyAppend(l[1..], t, phase);
      assert (l + [t])[1..] == l[1..] + [t];
    }
  }

  lemma {:induction false} BusyBound(l: seq<Tid>, phase: map<Tid, Phase>)
    ensures BusyCount(l, phase) <= |l|
  {
    if l != [] { BusyBound(l[1..], phase); }
  }

  lemma SetKeeps(p: Pool, t: Tid, f: Phase)
    requires Inv(p) && t in p.m.list
    ensures Accounted(Set(p, t, f))
    ensures !p.m.exit ==>
      |p.m.list| - BusyCount(p.m.list, p.phase[t := f]) ==
      p.m.avail - (if f == Busy(false) then 1 else 0) + (if p.phase[t] == Busy(false) then 1 else 0)
  {
    BusyChange(p.m.list, t, f, p.phase);
  }

  lemma StartKeeps(p: Pool, n: Tid)
    requires Inv(p) && !p.m.exit && n !in p.created
    ensures Inv(Set(p, n, AtLoop).(m := Started(p.m, n), created := p.created + {n}))
  {
    assert n !in p.m.list by { assert n !in Elements(p.m.list); }
    BusyAppend(p.m.list, n, p.phase[n := AtLoop]);
    BusyFrame(p.m.list, n, AtLoop, p.phase);
    assert Elements(p.m.list + [n]) == Elements(p.m.list) + {n};
  }

  lemma TakeKeeps(p: Pool, t: Tid, forget: bool, spawn: Option<Tid>)
    requires Inv(p) && Enabled(p, Take(t, forget, spawn))
    ensures Inv(Next(p, Take(t, forget, spawn)))
  {
    hide BusyCount, Distinct, Elements;
    var f := if p.m.exit then Ended else Busy(forget);
    SetKeeps(p, t, f);
    if !p.m.exit && Spawns(p.m, forget) && spawn.Some? {
      StartKeeps(Set(p, t, f).(m := Took(p.m, forget, None)), spawn.value);
    }
  }

  lemma DetachKeeps(p: Pool, t: Tid)
    requires Inv(p) && t in p.m.list && !p.m.exit
    ensures Accounted(Set(p, t, Ended).(m := p.m.(list := Remove(p.m.list, t)), detached := p.detached + {t}))
    ensures |Remove(p.m.list, t)| == |p.m.list| - 1
    ensures forall x :: x in Remove(p.m.list, t) ==> x in p.m.list && x != t
    ensures |Remove(p.m.list, t)| - BusyCount(Remove(p.m.list, t), p.phase[t := Ended]) ==
            p.m.avail - 1 + (if p.phase[t] == Busy(false) then 1 else 0)
  {
    var r := Remove(p.m.list, t);
    RemoveOne(p.m.list, t);
    BusyRemove(p.m.list, t, p.phase[t := Ended]);
    BusyChange(p.m.list, t, Ended, p.phase);
  }

  lemma FinishKeeps(p: Pool, t: Tid)
    requires Inv(p) && Enabled(p, Finish(t))
    ensures Inv(Next(p, Finish(t)))
  {
    hide Remove, BusyCount, Distinct, Elements;
    SetKeeps(p, t, AtLoop);
    SetKeeps(p, t, Ended);
    if !p.m.exit { DetachKeeps(p, t); }
  }

  lemma JoinKeeps(p: Pool)
    requires Inv(p) && Enabled(p, Join)
    ensures Inv(Next(p, Join))
  {
    var t := p.m.list[0];
    assert t !in p.m.list[1..];
    assert Elements(p.m.list) == {t} + Elements(p.m.list[1..]);
  }

  lemma StepKeeps(p: Pool, e: Event)
    requires Inv(p) && Enabled(p, e)
    ensures Inv(Next(p, e))
  {
    match e
    case Enter(t) => SetKeeps(p, t, if p.stopped then Ended else InReceive);
    case Interrupted(t) => SetKeeps(p, t, AtLoop);
    case Fail(t) => SetKeeps(p, t, Ended);
    case Cancelled(t) => SetKeeps(p, t, Ended);
    case Take(t, forget, spawn) => TakeKeeps(p, t, forget, spawn);
    case Finish(t) => FinishKeeps(p, t);
    case Stop =>
    case Sleep =>
    case Wake =>
    case Signal =>
    case Exit =>
    case Join => JoinKeeps(p);
  }

  lemma InitialInv(maxIdle: int, t: Tid)
    ensures Inv(Initial(maxIdle, t))
  {
    var p := Initial(maxIdle, t);
    assert p.m.list == [t];
    assert BusyCount([t], p.phase) == 0 by { assert [t][1..] == []; }
  }

  /** Over all runs: each worker ever created is in exactly one place, and before exit the
      number available is the number there are less those busy with more than a FORGET. */
  lemma {:induction false} Accounting(p: Pool, es: seq<Event>, q: Pool)
    requires Inv(p) && Trace(p, es, q)
    ensures Inv(q)
    decreases |es|
  {
    if es != [] {
      StepKeeps(p, es[0]);
      Accounting(Next(p, es[0]), es[1..], q);
    }
  }

  // ---- availability ----

  ghost predicate Alive(p: Pool) {
    !p.m.exit ==> p.m.list != [] && 0 <= p.m.avail <= p.m.maxIdle
  }

  ghost predicate Ready(p: Pool) { !p.m.exit ==> 1 <= p.m.avail }

  /** No thread that was called for could not be created. */
  predicate Creates(e: Event) { e.Take? ==> e.spawn.Some? }

  lemma AliveStep(p: Pool, e: Event)
    requires Inv(p) && Enabled(p, e) && Alive(p) && 1 <= p.m.maxIdle
    ensures Alive(Next(p, e)) && Next(p, e).m.maxIdle == p.m.maxIdle
    ensures Ready(p) && Creates(e) ==> Ready(Next(p, e))
  {
    hide Remove, BusyCount, Distinct, Elements;
    StepKeeps(p, e);
    var q := Next(p, e);
    BusyBound(q.m.list, q.phase);
  }

  /** With max_idle at least 1 there is always a worker and never more than max_idle idle ones;
      and if threads can be created, one is always available. */
  lemma {:induction false} Availability(p: Pool, es: seq<Event>, q: Pool)
    requires Inv(p) && Alive(p) && 1 <= p.m.maxIdle && Trace(p, es, q)
    ensures Alive(q)
    ensures Ready(p) && (forall e :: e in es ==> Creates(e)) ==> Ready(q)
    decreases |es|
  {
    if es != [] {
      AliveStep(p, es[0]);
      StepKeeps(p, es[0]);
      assert es[0] in es;
      Availability(Next(p, es[0]), es[1..], q);
    }
  }

  /** A worker that gets a FORGET leaves a pool without max_idle empty. */
  lemma ForgetEmpties(maxIdle: int, t: Tid) returns (es: seq<Event>, q: Pool)
    requires maxIdle < 1
    ensures Trace(Initial(maxIdle, t), es, q) && !q.m.exit && q.m.list == []
  {
    var p0 := Initial(maxIdle, t);
    var p1 := Next(p0, Enter(t));
    var p2 := Next(p1, Take(t, true, None));
    q := Next(p2, Finish(t));
    assert q.m.list == Remove([t], t) == [];
    es := [Enter(t), Take(t, true, None), Finish(t)];
    assert Trace(q, [], q);
    assert es[2..] == [Finish(t)] && [Finish(t)][1..] == [];
    assert Trace(p2, es[2..], q);
    assert es[1..][1..] == es[2..];
    assert Trace(p1, es[1..], q);
  }

  ghost predicate Reachable(p: Pool, q: Pool) { exists es :: Trace(p, es, q) }

  /** The pool keeps a worker until it is told to end, in every run, exactly if max_idle is positive. */
  lemma KeepsAWorker(maxIdle: int, t: Tid)
    ensures (forall q :: Reachable(Initial(maxIdle, t), q) ==> q.m.exit || q.m.list != []) <==> 1 <= maxIdle
  {
    var p := Initial(maxIdle, t);
    if 1 <= maxIdle {
      forall q | Reachable(p, q) ensures q.m.exit || q.m.list != [] {
        var es :| Trace(p, es, q);
        InitialInv(maxIdle, t);
        Availability(p, es, q);
      }
    } else {
      var es, q := ForgetEmpties(maxIdle, t);
      assert Reachable(p, q);
    }
  }

  // ---- shutting down ----

  function Weight(f: Phase): nat {
    match f
    case Busy(_) => 4
    case InReceive => 3
    case AtLoop => 2
    case Ended => 1
  }

  function Work(l: seq<Tid>, phase: map<Tid, Phase>): nat {
    if l == [] then 0 else (if l[0] in phase then Weight(phase[l[0]]) else 1) + Work(l[1..], phase)
  }

  lemma {:induction false} WorkBound(l: seq<Tid>, phase: map<Tid, Phase>)
    ensures Work(l, phase) <= 4 * |l|
  {
    if l != [] { WorkBound(l[1..], phase); }
  }

  lemma {:induction false} WorkFrame(l: seq<Tid>, t: Tid, f: Phase, phase: map<Tid, Phase>)
    requires t !in l
    ensures Work(l, phase[t := f]) == Work(l, phase)
  {
    if l != [] { WorkFrame(l[1..], t, f, phase); }
  }

  lemma {:induction false} WorkDrops(l: seq<Tid>, t: Tid, f: Phase, phase: map<Tid, Phase>)
    requires Distinct(l) && t in l && t in phase && Weight(f) < Weight(phase[t])
    ensures Work(l, phase[t := f]) < Work(l, phase)
  {
    if l[0] == t {
      assert t !in l[1..];
      WorkFrame(l[1..], t, f, phase);
    } else {
      WorkDrops(l[1..], t, f, phase);
    }
  }

  /** After exit nobody is added, nobody takes itself out, and every step is one towards the end. */
  lemma ExitStep(p: Pool, e: Event)
    requires Inv(p) && p.m.exit && Enabled(p, e)
    ensures var q := Next(p, e);
      && q.m.exit && q.created == p.created && q.detached == p.detached
      && (q.m.list == p.m.list || (p.m.list != [] && q.m.list == p.m.list[1..]))
      && Work(q.m.list, q.phase) < Work(p.m.list, p.phase)
  {
    match e
    case Enter(t) => WorkDrops(p.m.list, t, Ended, p.phase);
    case Interrupted(t) => WorkDrops(p.m.list, t, AtLoop, p.phase);
    case Fail(t) => WorkDrops(p.m.list, t, Ended, p.phase);
    case Cancelled(t) => WorkDrops(p.m.list, t, Ended, p.phase);
    case Take(t, _, _) => WorkDrops(p.m.list, t, Ended, p.phase);
    case Finish(t) =>
      WorkDrops(p.m.list, t, AtLoop, p.phase);
      WorkDrops(p.m.list, t, Ended, p.phase);
    case Stop =>
    case Sleep =>
    case Wake =>
    case Signal =>
    case Exit =>
    case Join =>
  }

  /** As long as a worker is left after exit, something can happen. */
  lemma ExitProgress(p: Pool)
    requires Inv(p) && p.m.exit && p.m.list != []
    ensures exists e :: Enabled(p, e)
  {
    var t := p.m.list[0];
    match p.phase[t]
    case AtLoop => assert Enabled(p, Enter(t));
    case InReceive => assert Enabled(p, Cancelled(t));
    case Busy(_) => assert Enabled(p, Finish(t));
    case Ended => assert Enabled(p, Join);
  }

  /** Every run after exit is short, and where it cannot go on each worker ever created has been
      reclaimed exactly once: detached before exit, or joined after. */
  lemma {:induction false} Shutdown(p: Pool, es: seq<Event>, q: Pool)
    requires Inv(p) && p.m.exit && Trace(p, es, q)
    ensures |es| <= 4 * |p.m.list|
    ensures q.m.exit && q.created == p.created && q.detached == p.detached && q.detached !! q.joined
    ensures (forall e :: !Enabled(q, e)) ==> q.m.list == [] && q.created == q.detached + q.joined
  {
    ShutdownWork(p, es, q);
    WorkBound(p.m.list, p.phase);
    Accounting(p, es, q);
    if q.m.list != [] { ExitProgress(q); }
  }

  lemma {:induction false} ShutdownWork(p: Pool, es: seq<Event>, q: Pool)
    requires Inv(p) && p.m.exit && Trace(p, es, q)
    ensures |es| <= Work(p.m.list, p.phase)
    ensures q.m.exit && q.created == p.created && q.detached == p.detached
    decreases |es|
  {
    if es != [] {
      ExitStep(p, es[0]);
      StepKeeps(p, es[0]);
      ShutdownWork(Next(p, es[0]), es[1..], q);
    }
  }

  // ---- main's wait ----

  /** What goes on by itself, with nothing new from the kernel or from outside. */
  predicate Internal(e: Event) { e.Enter? || e.Finish? || e.Wake? || e.Exit? }

  /** A worker that gets back to the head of the loop. */
  predicate Returning(p: Pool, t: Tid) {
    && t in p.m.list && t in p.phase
    && (p.phase[t] in {AtLoop, Busy(true)} || (p.phase[t] == Busy(false) && p.m.avail < p.m.maxIdle))
  }

  /** Main does not sleep, or there is a post, or somebody who is going to post. */
  ghost predicate GoingOn(p: Pool) { !p.asleep || p.posts > 0 || exists t :: Returning(p, t) }

  lemma {:induction false} WorkRemove(l: seq<Tid>, t: Tid, phase: map<Tid, Phase>)
    requires t in l
    ensures Work(Remove(l, t), phase) < Work(l, phase)
  {
    if l[0] != t {
      WorkRemove(l[1..], t, phase);
      assert ([l[0]] + Remove(l[1..], t))[1..] == Remove(l[1..], t);
    }
  }

  function Left(p: Pool): nat {
    Work(p.m.list, p.phase) + (if p.asleep then 1 else 0) + (if p.m.exit then 0 else 1)
  }

  lemma InternalWork(p: Pool, e: Event)
    requires Inv(p) && p.stopped && Enabled(p, e) && Internal(e)
    ensures Left(Next(p, e)) < Left(p) && Next(p, e).stopped
  {
    hide Remove, Work, Distinct, Elements;
    match e
    case Enter(t) => WorkDrops(p.m.list, t, Ended, p.phase);
    case Finish(t) =>
      WorkDrops(p.m.list, t, AtLoop, p.phase);
      WorkDrops(p.m.list, t, Ended, p.phase);
      WorkRemove(p.m.list, t, p.phase[t := Ended]);
    case Wake =>
    case Exit =>
  }

  /** An internal step does not change whether main goes on. */
  lemma InternalStep(p: Pool, e: Event)
    requires Inv(p) && Alive(p) && p.stopped && !p.m.exit && Enabled(p, e) && Internal(e)
    ensures Next(p, e).m.exit ==> GoingOn(p)
    ensures !Next(p, e).m.exit ==> (GoingOn(Next(p, e)) <==> GoingOn(p))
  {
    hide Work, BusyCount, Elements, Remove, Distinct;
    match e
    case Enter(t) => assert Returning(p, t);
    case Finish(t) => FinishReturning(p, t);
    case Wake =>
    case Exit =>
  }

  /** A worker that finishes is Returning, unless it detaches itself, which leaves the others alone. */
  lemma FinishReturning(p: Pool, t: Tid)
    requires Inv(p) && Alive(p) && !p.m.exit && Enabled(p, Finish(t))
    ensures (exists x :: Returning(Next(p, Finish(t)), x)) <==> (exists x :: Returning(p, x))
  {
    hide Work, BusyCount, Elements, Remove, Distinct;
    var q := Next(p, Finish(t));
    if Finished(p.m, t, p.phase[t].forget).1.GoesOn? {
      assert Returning(p, t) && Returning(q, t);
    } else {
      RemoveOne(p.m.list, t);
      assert forall x :: Returning(q, x) <==> Returning(p, x);
    }
  }

  lemma {:induction false} InternalRun(p: Pool, es: seq<Event>, q: Pool)
    requires Inv(p) && p.stopped && Trace(p, es, q) && forall e :: e in es ==> Internal(e)
    ensures |es| <= Left(p) && q.stopped && (p.m.exit ==> q.m.exit)
    decreases |es|
  {
    hide Inv, Left, Took, Finished;
    if es != [] {
      InternalWork(p, es[0]);
      ExitStays(p, es[0]);
      StepKeeps(p, es[0]);
      InternalRun(Next(p, es[0]), es[1..], q);
    }
  }

  lemma ExitStays(p: Pool, e: Event)
    requires Enabled(p, e)
    ensures p.m.exit ==> Next(p, e).m.exit
  {
  }

  lemma {:induction false} RunGoesOn(p: Pool, es: seq<Event>, q: Pool)
    requires Inv(p) && Alive(p) && 1 <= p.m.maxIdle && p.stopped && !p.m.exit
    requires Trace(p, es, q) && forall e :: e in es ==> Internal(e)
    ensures if q.m.exit then GoingOn(p) else GoingOn(q) <==> GoingOn(p)
    decreases |es|
  {
    hide Inv, Next, Enabled, Left, GoingOn, Internal, Alive;
    if es != [] {
      var r := Next(p, es[0]);
      InternalStep(p, es[0]);
      InternalWork(p, es[0]);
      AliveStep(p, es[0]);
      StepKeeps(p, es[0]);
      if r.m.exit { InternalRun(r, es[1..], q); } else { RunGoesOn(r, es[1..], q); }
    }
  }

  lemma Halted(p: Pool)
    requires p.stopped && !p.m.exit && forall e :: Internal(e) ==> !Enabled(p, e)
    ensures !GoingOn(p)
  {
    assert !Enabled(p, Wake) && !Enabled(p, Exit);
    forall t ensures !Returning(p, t) { assert !Enabled(p, Enter(t)) && !Enabled(p, Finish(t)); }
  }

  /** When the session has ended and nothing more comes in, every run stops soon; and there main
      has gone on to end the loop exactly if it did not sleep, or there was a post, or one of
      the workers was outside receive and not about to detach itself. */
  lemma MainGoesOn(p: Pool, es: seq<Event>, q: Pool)
    requires Inv(p) && Alive(p) && 1 <= p.m.maxIdle && p.stopped && !p.m.exit
    requires Trace(p, es, q) && forall e :: e in es ==> Internal(e)
    ensures |es| <= 4 * |p.m.list| + 2
    ensures (forall e :: Internal(e) ==> !Enabled(q, e)) ==> (q.m.exit <==> GoingOn(p))
  {
    hide Inv, Next, Enabled, GoingOn, Internal, Alive;
    InternalRun(p, es, q);
    WorkBound(p.m.list, p.phase);
    RunGoesOn(p, es, q);
    if !q.m.exit && forall e :: Internal(e) ==> !Enabled(q, e) { Halted(q); }
  }

  /** So main sleeps on exactly if each worker waits in receive, or is about to find max_idle
      others available and detach itself. */
  lemma SleepsOn(p: Pool)
    requires Inv(p) && Alive(p) && p.asleep
    ensures !GoingOn(p) <==>
            p.posts == 0 && forall t :: t in p.m.list ==>
              p.phase[t] == InReceive || (p.phase[t] == Busy(false) && p.m.avail == p.m.maxIdle)
  {
    hide BusyCount, Elements, Distinct;
    if !GoingOn(p) {
      forall t | t in p.m.list
        ensures p.phase[t] == InReceive || (p.phase[t] == Busy(false) && p.m.avail == p.m.maxIdle)
      {
        assert !Returning(p, t);
      }
    } else if t :| Returning(p, t) {
      assert t in p.m.list && p.phase[t] != InReceive;
    }
  }

  /** Which happens: whoever ends the session while its one worker is in receive ends nothing. */
  lemma SleepsOnOccurs(maxIdle: int, t: Tid) returns (q: Pool)
    ensures Trace(Initial(maxIdle, t), [Enter(t), Sleep, Stop], q)
    ensures q.stopped && !q.m.exit && !GoingOn(q)
  {
    var p1 := Next(Initial(maxIdle, t), Enter(t));
    var p2 := Next(p1, Sleep);
    q := Next(p2, Stop);
    var es := [Enter(t), Sleep, Stop];
    assert Trace(q, [], q);
    assert es[2..] == [Stop] && [Stop][1..] == [];
    assert Trace(p2, es[2..], q);
    assert es[1..][1..] == es[2..];
    assert Trace(p1, es[1..], q);
  }
}
