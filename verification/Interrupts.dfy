/** lib/fuse_lowlevel.c: requests, INTERRUPT requests, and the callbacks registered for them,
    as the steps between the two locks. */
module Interrupts {
  import opened Options
  import opened Sequences

  type Rid = nat        // a struct fuse_req
  type Iid = nat        // one that carries an INTERRUPT

  /** Who holds req->lock: nobody, fuse_req_interrupt_func with a callback or NULL, or a handler. */
  datatype Holder = Nobody | Registrar(some: bool) | Handler(i: Iid)

  /** A request and its history: how often it was destroyed, its callbacks called, a callback
      and NULL registered; how often it was marked interrupted while it had no callback, while
      it had one, and after it was freed; and how many callbacks found it marked when they
      were registered. */
  datatype Req = Req(unique: nat, ctr: int, interrupted: bool, func: bool, holder: Holder, freed: bool, dying: bool,
                     destroyed: nat, calls: nat, regs: nat, nulls: nat, before: nat, during: nat, late: nat, hits: nat)

  /** How far find_interrupted has got with the request it found: it has raised ctr; it has
      marked the request and holds its lock; it has released the lock. */
  datatype Handling = Pinned(r: Rid) | Holding(r: Rid, func: bool) | Released(r: Rid)

  datatype Pending = Pending(i: Iid, target: nat)

  /** struct fuse_session, and what became of each INTERRUPT. */
  datatype Session = Session(list: seq<Rid>, interrupts: seq<Pending>, reqs: map<Rid, Req>,
                             handling: map<Iid, Handling>, applied: set<Iid>, dropped: set<Iid>, answered: set<Iid>)

  datatype Event =
    | Arrive(r: Rid, unique: nat)      // fuse_session_process_buf_int: check_interrupt, list_add_req
    | Interrupt(i: Iid, target: nat)   // do_interrupt, up to where find_interrupted lets go of se->lock
    | Mark(i: Iid)                     // find_interrupted takes both locks
    | Call(i: Iid)                     // it calls what it found and lets go of req->lock
    | Unpin(i: Iid)                    // it gives its reference back
    | Register(r: Rid, some: bool)     // fuse_req_interrupt_func sets the callback, or NULL
    | Check(r: Rid)                    // and has called it, if the request is marked, and lets go of req->lock
    | Free(r: Rid)                     // fuse_free_req under se->lock, in any thread or inside a callback
    | Destroy(r: Rid)                  // and what it does afterwards

  /** The first request of the list with that unique. */
  function Find(list: seq<Rid>, reqs: map<Rid, Req>, unique: nat): (r: Option<Rid>)
    ensures r.Some? ==> r.value in list && r.value in reqs && reqs[r.value].unique == unique
    ensures r.None? ==> forall x :: x in list && x in reqs ==> reqs[x].unique != unique
  {
    if list == [] then None
    else if list[0] in reqs && reqs[list[0]].unique == unique then Some(list[0])
    else Find(list[1..], reqs, unique)
  }

  /** The first pending INTERRUPT for that target. */
  function FindPending(l: seq<Pending>, target: nat): (k: Option<nat>)
    ensures k.Some? ==> k.value < |l| && l[k.value].target == target
    ensures k.None? ==> forall p :: p in l ==> p.target != target
  {
    if l == [] then None
    else if l[0].target == target then Some(0)
    else match FindPending(l[1..], target) case None => None case Some(k) => Some(k + 1)
  }

  predicate Known(s: Session, i: Iid) {
    || i in s.handling || i in s.applied || i in s.dropped || i in s.answered
    || exists p :: p in s.interrupts && p.i == i
  }

  predicate Enabled(s: Session, e: Event) {
    match e
    case Arrive(r, _) => r !in s.reqs
    case Interrupt(i, _) => !Known(s, i)
    case Mark(i) =>
      i in s.handling && s.handling[i].Pinned? && s.handling[i].r in s.reqs && s.reqs[s.handling[i].r].holder == Nobody
    case Call(i) => i in s.handling && s.handling[i].Holding? && s.handling[i].r in s.reqs
    case Unpin(i) => i in s.handling && s.handling[i].Released? && s.handling[i].r in s.reqs
    case Register(r, _) => r in s.reqs && !s.reqs[r].freed && s.reqs[r].holder == Nobody
    case Check(r) => r in s.reqs && s.reqs[r].holder.Registrar?
    case Free(r) => r in s.reqs && !s.reqs[r].freed
    case Destroy(r) => r in s.reqs && s.reqs[r].dying
  }

  /** check_interrupt: an INTERRUPT that came first is applied; otherwise the oldest one is
      taken off the list and answered with EAGAIN. */
  function CheckInterrupt(s: Session, unique: nat): (r: (Session, bool)) {
    match FindPending(s.interrupts, unique)
    case Some(k) => (s.(interrupts := Without(s.interrupts, k), applied := s.applied + {s.interrupts[k].i}), true)
    case None =>
      if s.interrupts == [] then (s, false)
      else (s.(interrupts := s.interrupts[1..], answered := s.answered + {s.interrupts[0].i}), false)
  }

  function Fresh(unique: nat, interrupted: bool): Req {
    Req(unique, 1, interrupted, false, Nobody, false, false, 0, 0, 0, 0, if interrupted then 1 else 0, 0, 0, 0)
  }

  /** Marking a request, with the count of the kind of mark it is. */
  function Marked(q: Req): Req {
    if q.freed then q.(interrupted := true, late := q.late + 1)
    else if q.func then q.(interrupted := true, during := q.during + 1)
    else q.(interrupted := true, before := q.before + 1)
  }

  function AfterCall(q: Req, func: bool): Req {
    q.(calls := if func then q.calls + 1 else q.calls, holder := Nobody)
  }

  function AfterUnpin(q: Req): Req {
    q.(ctr := q.ctr - 1, destroyed := if q.ctr == 1 then q.destroyed + 1 else q.destroyed)
  }

  function AfterRegister(q: Req, some: bool): Req {
    if some then q.(func := true, holder := Registrar(true), regs := q.regs + 1)
    else q.(func := false, holder := Registrar(false), nulls := q.nulls + 1)
  }

  function AfterCheck(q: Req): Req
    requires q.holder.Registrar?
  {
    if q.interrupted && q.holder.some then q.(calls := q.calls + 1, hits := q.hits + 1, holder := Nobody)
    else q.(holder := Nobody)
  }

  function AfterFree(q: Req): Req {
    q.(func := false, freed := true, ctr := q.ctr - 1, dying := q.ctr == 1)
  }

  function AfterDestroy(q: Req): Req {
    q.(dying := false, destroyed := q.destroyed + 1)
  }

  function Next(s: Session, e: Event): Session
    requires Enabled(s, e)
  {
    match e
    case Arrive(r, unique) =>
      var (t, found) := CheckInterrupt(s, unique);
      t.(list := s.list + [r], reqs := s.reqs[r := Fresh(unique, found)])
    case Interrupt(i, target) => (
      match Find(s.list, s.reqs, target)
      case Some(r) =>
        s.(reqs := s.reqs[r := s.reqs[r].(ctr := s.reqs[r].ctr + 1)], handling := s.handling[i := Pinned(r)])
      case None =>
        if FindPending(s.interrupts, target).Some? then s.(dropped := s.dropped + {i})
        else s.(interrupts := s.interrupts + [Pending(i, target)])
      )
    case Mark(i) =>
      var r := s.handling[i].r;
      var q := s.reqs[r];
      s.(reqs := s.reqs[r := Marked(q).(holder := Handler(i))], handling := s.handling[i := Holding(r, q.func)])
    case Call(i) =>
      var r := s.handling[i].r;
      s.(reqs := s.reqs[r := AfterCall(s.reqs[r], s.handling[i].func)], handling := s.handling[i := Released(r)])
    case Unpin(i) =>
      var r := s.handling[i].r;
      s.(reqs := s.reqs[r := AfterUnpin(s.reqs[r])], handling := s.handling - {i}, applied := s.applied + {i})
    case Register(r, some) => s.(reqs := s.reqs[r := AfterRegister(s.reqs[r], some)])
    case Check(r) => s.(reqs := s.reqs[r := AfterCheck(s.reqs[r])])
    case Free(r) => s.(list := Remove(s.list, r), reqs := s.reqs[r := AfterFree(s.reqs[r])])
    case Destroy(r) => s.(reqs := s.reqs[r := AfterDestroy(s.reqs[r])])
  }

  predicate Trace(s: Session, es: seq<Event>, t: Session)
    decreases |es|
  {
    if es == [] then s == t else Enabled(s, es[0]) && Trace(Next(s, es[0]), es[1..], t)
  }

  const EMPTY := Session([], [], map[], map[], {}, {}, {})

  // ---- what every step keeps ----

  /** The handlers that hold a reference to r, and how far each has got. */
  function Mine(h: map<Iid, Handling>, r: Rid): map<Iid, Handling> { map i | i in h && h[i].r == r :: h[i] }

  /** The reference count, and the one destruction it leads to. */
  ghost predicate Counted(q: Req, mine: map<Iid, Handling>) {
    && q.ctr == (if q.freed then 0 else 1) + |mine|
    && (q.ctr > 0 ==> q.destroyed == 0 && !q.dying)
    && (q.ctr == 0 ==> q.destroyed + (if q.dying then 1 else 0) == 1)
  }

  /** Who holds the request's lock. */
  ghost predicate Locked(q: Req, mine: map<Iid, Handling>) {
    && (forall i :: q.holder == Handler(i) ==> i in mine && mine[i].Holding?)
    && (forall i :: i in mine && mine[i].Holding? ==> q.holder == Handler(i))
  }

  /** A call that is due but has not been made yet. */
  function Due(q: Req, mine: map<Iid, Handling>): nat {
    match q.holder
    case Handler(i) => if i in mine && mine[i].Holding? && mine[i].func then 1 else 0
    case Registrar(_) => 0
    case Nobody => 0
  }

  /** The calls made are those the marks and the registrations called for. */
  ghost predicate Called(q: Req, mine: map<Iid, Handling>) {
    && q.calls + Due(q, mine) == q.during + q.hits
    && (q.interrupted <==> q.before + q.during + q.late > 0)
    && (q.func ==> q.regs > 0 && !q.freed)
    && (q.nulls == 0 && q.regs > 0 && !q.freed ==> q.func)
    && (!q.freed ==> q.late == 0)
    && (q.regs == 0 ==> q.during == 0 && q.hits == 0)
    && (q.regs == 1 && q.nulls == 0 ==> q.hits == if q.before > 0 && !q.holder.Registrar? then 1 else 0)
    && (q.holder.Registrar? ==> q.late == 0 && (if q.holder.some then q.regs > 0 else q.nulls > 0))
    && (q.holder.Registrar? && q.regs == 1 && q.nulls == 0 ==> q.during == 0)
  }

  ghost predicate Good(q: Req, mine: map<Iid, Handling>) {
    Counted(q, mine) && Locked(q, mine) && Called(q, mine)
  }

  ghost predicate Apart(l: seq<Pending>) {
    forall a, b :: 0 <= a < b < |l| ==> l[a].target != l[b].target && l[a].i != l[b].i
  }

  /** The list holds the requests that are not freed; pending targets are distinct and none is on the list. */
  ghost predicate Lists(s: Session) {
    && Distinct(s.list)
    && (forall r :: r in s.list <==> r in s.reqs && !s.reqs[r].freed)
    && Apart(s.interrupts)
    && (forall p, r :: p in s.interrupts && r in s.list && r in s.reqs ==> s.reqs[r].unique != p.target)
  }

  ghost predicate Inv(s: Session) {
    && Lists(s)
    && (forall i :: i in s.handling ==> s.handling[i].r in s.reqs)
    && (forall r :: r in s.reqs ==> Good(s.reqs[r], Mine(s.handling, r)))
  }

  /** An INTERRUPT is in one place only: being handled, waiting, or one of the three outcomes. */
  ghost predicate OnePlace(s: Session) {
    && s.applied !! s.dropped !! s.answered !! s.handling.Keys
    && (forall p :: p in s.interrupts ==> p.i !in s.applied + s.dropped + s.answered + s.handling.Keys)
  }

  // ---- one request at a time ----

  lemma MarkedGood(q: Req, mine: map<Iid, Handling>, i: Iid, r: Rid)
    requires Good(q, mine) && q.holder == Nobody && i in mine && mine[i].Pinned?
    ensures Good(Marked(q).(holder := Handler(i)), mine[i := Holding(r, q.func)])
  {
    assert mine[i := Holding(r, q.func)].Keys == mine.Keys;
    assert |mine[i := Holding(r, q.func)]| == |mine.Keys|;
  }

  lemma CalledGood(q: Req, mine: map<Iid, Handling>, i: Iid, r: Rid)
    requires Good(q, mine) && i in mine && mine[i].Holding?
    ensures Good(AfterCall(q, mine[i].func), mine[i := Released(r)])
  {
    assert mine[i := Released(r)].Keys == mine.Keys;
    assert |mine[i := Released(r)]| == |mine.Keys|;
  }

  lemma UnpinnedGood(q: Req, mine: map<Iid, Handling>, i: Iid)
    requires Good(q, mine) && i in mine && mine[i].Released?
    ensures Good(AfterUnpin(q), mine - {i})
  {
    assert (mine - {i}).Keys == mine.Keys - {i};
    assert |mine - {i}| == |mine.Keys - {i}|;
  }

  lemma PinnedGood(q: Req, mine: map<Iid, Handling>, i: Iid, r: Rid)
    requires Good(q, mine) && !q.freed && i !in mine
    ensures Good(q.(ctr := q.ctr + 1), mine[i := Pinned(r)])
  {
    assert mine[i := Pinned(r)].Keys == mine.Keys + {i};
    assert |mine[i := Pinned(r)]| == |mine.Keys + {i}|;
  }

  lemma RegisteredGood(q: Req, mine: map<Iid, Handling>, some: bool)
    requires Good(q, mine) && !q.freed && q.holder == Nobody
    ensures Good(AfterRegister(q, some), mine)
  {
  }

  lemma CheckedGood(q: Req, mine: map<Iid, Handling>)
    requires Good(q, mine) && q.holder.Registrar?
    ensures Good(AfterCheck(q), mine)
  {
  }

  lemma FreedGood(q: Req, mine: map<Iid, Handling>)
    requires Good(q, mine)
    ensures !q.freed ==> Good(AfterFree(q), mine)
    ensures q.dying ==> Good(AfterDestroy(q), mine)
  {
  }

  /** The steps of the threads that work on the request itself. */
  lemma OwnerGood(s: Session, e: Event, r: Rid, mine: map<Iid, Handling>)
    requires Enabled(s, e) && e in {Register(r, true), Register(r, false), Check(r), Free(r), Destroy(r)}
    requires Good(s.reqs[r], mine)
    ensures Good(Next(s, e).reqs[r], mine)
  {
    hide Good, Remove;
    match e
    case Register(_, some) => RegisteredGood(s.reqs[r], mine, some);
    case Check(_) => CheckedGood(s.reqs[r], mine);
    case Free(_) => FreedGood(s.reqs[r], mine);
    case Destroy(_) => FreedGood(s.reqs[r], mine);
  }

  // ---- the whole session ----

  lemma ArriveKeeps(s: Session, r: Rid, unique: nat)
    requires Inv(s) && Enabled(s, Arrive(r, unique))
    ensures Inv(Next(s, Arrive(r, unique)))
  {
    hide Counted, Locked, Called, Lists;
    var t := Next(s, Arrive(r, unique));
    ArriveLists(s, r, unique);
    assert Mine(t.handling, r) == map[];
    assert Good(t.reqs[r], map[]) by { FreshGood(unique, t.reqs[r].interrupted); }
  }

  lemma FreshGood(unique: nat, found: bool)
    ensures Good(Fresh(unique, found), map[])
  {
  }

  lemma ListedIsLive(s: Session, r: Rid)
    requires Lists(s)
    ensures r in s.list ==> r in s.reqs && !s.reqs[r].freed
  {
  }

  lemma InterruptLists(s: Session, i: Iid, target: nat)
    requires Lists(s) && Enabled(s, Interrupt(i, target))
    ensures Lists(Next(s, Interrupt(i, target)))
  {
    var t := Next(s, Interrupt(i, target));
    if |t.interrupts| > |s.interrupts| {
      assert forall p :: p in t.interrupts ==> p in s.interrupts || p == Pending(i, target);
    }
  }

  lemma WithoutLeaves(l: seq<Pending>, k: nat)
    requires Apart(l) && k < |l|
    ensures Apart(Without(l, k))
    ensures forall p :: p in Without(l, k) ==> p in l && p.target != l[k].target
  {
    var t := Without(l, k);
    assert forall j :: 0 <= j < |t| ==> t[j] == if j < k then l[j] else l[j + 1];
  }

  lemma CheckLeaves(s: Session, unique: nat)
    requires Apart(s.interrupts)
    ensures Apart(CheckInterrupt(s, unique).0.interrupts)
    ensures forall p :: p in CheckInterrupt(s, unique).0.interrupts ==> p in s.interrupts && p.target != unique
  {
    hide Apart;
    match FindPending(s.interrupts, unique)
    case Some(k) => WithoutLeaves(s.interrupts, k);
    case None =>
      if s.interrupts != [] {
        WithoutLeaves(s.interrupts, 0);
        assert Without(s.interrupts, 0) == s.interrupts[1..];
      }
  }

  lemma ArriveLists(s: Session, r: Rid, unique: nat)
    requires Lists(s) && Enabled(s, Arrive(r, unique))
    ensures Lists(Next(s, Arrive(r, unique)))
  {
    hide CheckInterrupt, Apart;
    CheckLeaves(s, unique);
  }

  lemma InterruptKeeps(s: Session, i: Iid, target: nat)
    requires Inv(s) && Enabled(s, Interrupt(i, target))
    ensures Inv(Next(s, Interrupt(i, target)))
  {
    hide Counted, Locked, Called, Lists;
    var t := Next(s, Interrupt(i, target));
    InterruptLists(s, i, target);
    match Find(s.list, s.reqs, target) {
      case Some(r) =>
        assert r in s.list && !s.reqs[r].freed by { ListedIsLive(s, r); }
        PinnedGood(s.reqs[r], Mine(s.handling, r), i, r);
        Touched(s, t, i, r);
        assert Mine(t.handling, r) == Mine(s.handling, r)[i := Pinned(r)];
      case None =>
    }
  }

  /** A step that changes one handler and the request it works on leaves the others alone. */
  lemma Touched(s: Session, t: Session, i: Iid, r: Rid)
    requires i in s.handling ==> s.handling[i].r == r
    requires i in t.handling ==> t.handling[i].r == r
    requires s.handling - {i} == t.handling - {i}
    ensures forall x :: x != r ==> Mine(t.handling, x) == Mine(s.handling, x)
  {
    forall x | x != r ensures Mine(t.handling, x) == Mine(s.handling, x) {
      assert forall j :: j != i ==> (j in s.handling <==> j in s.handling - {i});
      assert forall j :: j != i ==> (j in t.handling <==> j in t.handling - {i});
      assert forall j :: j in s.handling - {i} ==> s.handling[j] == (s.handling - {i})[j];
      assert forall j :: j in t.handling - {i} ==> t.handling[j] == (t.handling - {i})[j];
      assert Mine(t.handling, x).Keys == Mine(s.handling, x).Keys;
    }
  }

  /** The lists depend on who is freed, and on no more. */
  lemma SameLists(s: Session, t: Session)
    requires Lists(s) && t.list == s.list && t.interrupts == s.interrupts && t.reqs.Keys == s.reqs.Keys
    requires forall r :: r in s.reqs ==> t.reqs[r].freed == s.reqs[r].freed && t.reqs[r].unique == s.reqs[r].unique
    ensures Lists(t)
  {
  }

  lemma MarkKeeps(s: Session, i: Iid)
    requires Inv(s) && Enabled(s, Mark(i))
    ensures Inv(Next(s, Mark(i)))
  {
    hide Counted, Locked, Called, Lists;
    var t, r := Next(s, Mark(i)), s.handling[i].r;
    SameLists(s, t);
    MarkedGood(s.reqs[r], Mine(s.handling, r), i, r);
    Touched(s, t, i, r);
    assert Mine(t.handling, r) == Mine(s.handling, r)[i := Holding(r, s.reqs[r].func)];
  }

  lemma CallKeeps(s: Session, i: Iid)
    requires Inv(s) && Enabled(s, Call(i))
    ensures Inv(Next(s, Call(i)))
  {
    hide Counted, Locked, Called, Lists;
    var t, r := Next(s, Call(i)), s.handling[i].r;
    SameLists(s, t);
    CalledGood(s.reqs[r], Mine(s.handling, r), i, r);
    Touched(s, t, i, r);
    assert Mine(t.handling, r) == Mine(s.handling, r)[i := Released(r)];
  }

  lemma UnpinKeeps(s: Session, i: Iid)
    requires Inv(s) && Enabled(s, Unpin(i))
    ensures Inv(Next(s, Unpin(i)))
  {
    hide Counted, Locked, Called, Lists;
    var t, r := Next(s, Unpin(i)), s.handling[i].r;
    SameLists(s, t);
    UnpinnedGood(s.reqs[r], Mine(s.handling, r), i);
    Touched(s, t, i, r);
    assert Mine(t.handling, r) == Mine(s.handling, r) - {i};
  }

  lemma FreeLists(s: Session, r: Rid)
    requires Lists(s) && Enabled(s, Free(r))
    ensures Lists(Next(s, Free(r)))
  {
    hide Remove;
    RemoveOne(s.list, r);
  }

  lemma OwnerKeeps(s: Session, e: Event, r: Rid)
    requires Inv(s) && Enabled(s, e) && e in {Register(r, true), Register(r, false), Check(r), Free(r), Destroy(r)}
    ensures Inv(Next(s, e))
  {
    hide Good, Lists, Remove;
    OwnerGood(s, e, r, Mine(s.handling, r));
    if e.Free? { FreeLists(s, r); } else { SameLists(s, Next(s, e)); }
  }

  lemma StepKeeps(s: Session, e: Event)
    requires Inv(s) && Enabled(s, e)
    ensures Inv(Next(s, e))
  {
    hide Inv, Next;
    match e
    case Arrive(r, unique) => ArriveKeeps(s, r, unique);
    case Interrupt(i, target) => InterruptKeeps(s, i, target);
    case Mark(i) => MarkKeeps(s, i);
    case Call(i) => CallKeeps(s, i);
    case Unpin(i) => UnpinKeeps(s, i);
    case Register(r, _) => OwnerKeeps(s, e, r);
    case Check(r) => OwnerKeeps(s, e, r);
    case Free(r) => OwnerKeeps(s, e, r);
    case Destroy(r) => OwnerKeeps(s, e, r);
  }

  lemma {:induction false} RunKeeps(s: Session, es: seq<Event>, t: Session)
    requires Inv(s) && Trace(s, es, t)
    ensures Inv(t)
    decreases |es|
  {
    hide Inv, Next;
    if es != [] {
      StepKeeps(s, es[0]);
      RunKeeps(Next(s, es[0]), es[1..], t);
    }
  }

  // ---- what holds of every run ----

  lemma Reached(es: seq<Event>, t: Session)
    requires Trace(EMPTY, es, t)
    ensures Inv(t)
  {
    RunKeeps(EMPTY, es, t);
  }

  /** A request is destroyed at most once, only after it was freed and with no handler left
      that refers to it; and once both have happened it has been or is being destroyed. */
  lemma DestroyedOnce(es: seq<Event>, t: Session, r: Rid)
    requires Trace(EMPTY, es, t) && r in t.reqs
    ensures t.reqs[r].destroyed <= 1
    ensures t.reqs[r].destroyed + (if t.reqs[r].dying then 1 else 0) == 1
            <==> t.reqs[r].freed && forall i :: i in t.handling ==> t.handling[i].r != r
  {
    Reached(es, t);
    var mine := Mine(t.handling, r);
    assert Good(t.reqs[r], mine);
    if i :| i in t.handling && t.handling[i].r == r { assert i in mine; }
    if forall i :: i in t.handling ==> t.handling[i].r != r { assert mine == map[]; }
  }

  /** So what a handler or the list refers to is never destroyed, nor about to be. */
  lemma NothingDangles(es: seq<Event>, t: Session)
    requires Trace(EMPTY, es, t)
    ensures forall i :: i in t.handling ==>
              t.handling[i].r in t.reqs && t.reqs[t.handling[i].r].destroyed == 0 && !t.reqs[t.handling[i].r].dying
    ensures forall r :: r in t.list ==> r in t.reqs && t.reqs[r].destroyed == 0 && !t.reqs[r].dying
  {
    Reached(es, t);
    forall i | i in t.handling
      ensures t.reqs[t.handling[i].r].destroyed == 0 && !t.reqs[t.handling[i].r].dying
    {
      DestroyedOnce(es, t, t.handling[i].r);
    }
    forall r | r in t.list ensures t.reqs[r].destroyed == 0 && !t.reqs[r].dying { DestroyedOnce(es, t, r); }
  }

  /** No two waiting INTERRUPTs have one target, and none waits for a request that is there. */
  lemma OnlyStrangersWait(es: seq<Event>, t: Session)
    requires Trace(EMPTY, es, t)
    ensures Apart(t.interrupts)
    ensures forall p, r :: p in t.interrupts && r in t.reqs && t.reqs[r].unique == p.target ==> t.reqs[r].freed
  {
    Reached(es, t);
  }

  /** How often callbacks of a request have run, whenever nobody holds its lock: once for each
      mark made while one was there, and once for each that found the request marked when it
      was registered.  With one callback, and NULL never registered, the latter is once if a
      mark came before it. */
  lemma CallbackRuns(es: seq<Event>, t: Session, r: Rid)
    requires Trace(EMPTY, es, t) && r in t.reqs && t.reqs[r].holder == Nobody
    ensures t.reqs[r].calls == t.reqs[r].during + t.reqs[r].hits
    ensures t.reqs[r].regs == 0 ==> t.reqs[r].calls == 0
    ensures t.reqs[r].regs == 1 && t.reqs[r].nulls == 0 ==> t.reqs[r].hits == if t.reqs[r].before > 0 then 1 else 0
  {
    Reached(es, t);
    assert Good(t.reqs[r], Mine(t.handling, r));
  }

  /** For a request that one INTERRUPT has reached it runs exactly once if and only if
      that INTERRUPT got to both locks before the request was freed. */
  lemma OneInterruptOneCall(es: seq<Event>, t: Session, r: Rid)
    requires Trace(EMPTY, es, t) && r in t.reqs && t.reqs[r].holder == Nobody
    requires t.reqs[r].regs == 1 && t.reqs[r].nulls == 0
    requires t.reqs[r].before + t.reqs[r].during + t.reqs[r].late == 1
    ensures t.reqs[r].calls == 1 <==> t.reqs[r].late == 0
    ensures t.reqs[r].calls <= 1
  {
    CallbackRuns(es, t, r);
  }

  /** The other case can come after any run in which a handler has found a request and not
      locked it yet: the request is freed in between, and no call is made. */
  lemma LateInterrupt(s: Session, i: Iid, r: Rid) returns (t: Session)
    requires Inv(s) && i in s.handling && s.handling[i] == Pinned(r)
    requires !s.reqs[r].freed && s.reqs[r].holder == Nobody
    ensures Trace(s, [Free(r), Mark(i), Call(i)], t) && r in t.reqs
    ensures t.reqs[r] == s.reqs[r].(func := false, freed := true, ctr := t.reqs[r].ctr, dying := t.reqs[r].dying,
                                    interrupted := true, late := 1)
  {
    hide Counted, Locked, Lists;
    assert Good(s.reqs[r], Mine(s.handling, r));
    var s1 := Next(s, Free(r));
    var s2 := Next(s1, Mark(i));
    assert s2.handling[i] == Holding(r, false);
    t := Next(s2, Call(i));
    Three(s, Free(r), Mark(i), Call(i), s1, s2, t);
  }

  lemma Three(s: Session, a: Event, b: Event, c: Event, s1: Session, s2: Session, t: Session)
    requires Enabled(s, a) && s1 == Next(s, a) && Enabled(s1, b) && s2 == Next(s1, b)
    requires Enabled(s2, c) && t == Next(s2, c)
    ensures Trace(s, [a, b, c], t)
  {
    hide Enabled, Next;
    assert [a, b, c][1..] == [b, c] && [b, c][1..] == [c] && [c][1..] == [];
    assert Trace(t, [], t);
    assert Trace(s2, [c], t);
    assert Trace(s1, [b, c], t);
  }

  /** A request that gets its callback and then an INTERRUPT for it, up to where it is found. */
  lemma Found(r: Rid, unique: nat, i: Iid) returns (s: Session)
    ensures Trace(EMPTY, [Arrive(r, unique), Register(r, true), Check(r)] + [Interrupt(i, unique)], s)
    ensures i in s.handling && s.handling[i] == Pinned(r) && r in s.reqs
    ensures s.reqs[r] == Fresh(unique, false).(func := true, regs := 1, ctr := 2)
  {
    var es := [Arrive(r, unique), Register(r, true), Check(r)] + [Interrupt(i, unique)];
    var s1 := Next(EMPTY, es[0]);
    var s2 := Next(s1, es[1]);
    var s3 := Next(s2, es[2]);
    assert s3.list == [r] && s3.reqs[r].unique == unique;
    assert Find(s3.list, s3.reqs, unique) == Some(r);
    s := Next(s3, es[3]);
    assert Trace(s, es[4..], s);
    assert Trace(s3, es[3..], s);
    assert Trace(s2, es[2..], s);
    assert Trace(s1, es[1..], s);
  }

  /** So for every request there is a run in which its one callback is registered before its
      one INTERRUPT arrives, and never runs. */
  lemma LateInterruptOccurs(r: Rid, unique: nat, i: Iid) returns (t: Session)
    ensures Trace(EMPTY, [Arrive(r, unique), Register(r, true), Check(r)] + [Interrupt(i, unique)] +
                         [Free(r), Mark(i), Call(i)], t)
    ensures r in t.reqs && t.reqs[r].holder == Nobody && t.reqs[r].regs == 1 && t.reqs[r].nulls == 0
    ensures t.reqs[r].before + t.reqs[r].during == 0 && t.reqs[r].late == 1 && t.reqs[r].calls == 0
  {
    hide Enabled, Next, Trace;
    var es := [Arrive(r, unique), Register(r, true), Check(r)] + [Interrupt(i, unique)];
    var s := Found(r, unique, i);
    Reached(es, s);
    t := LateInterrupt(s, i, r);
    Concat(EMPTY, es, s, [Free(r), Mark(i), Call(i)], t);
  }

  lemma {:induction false} Concat(s: Session, es: seq<Event>, t: Session, fs: seq<Event>, u: Session)
    requires Trace(s, es, t) && Trace(t, fs, u)
    ensures Trace(s, es + fs, u)
    decreases |es|
  {
    hide Enabled, Next;
    if es == [] {
      assert es + fs == fs;
    } else {
      Concat(Next(s, es[0]), es[1..], t, fs, u);
      assert (es + fs)[1..] == es[1..] + fs;
    }
  }

  /** fuse_req_interrupt_func has no reference of its own: the request whose lock it is going to
      release is destroyed, or about to be, exactly if it was freed in the meantime, by the
      callback itself or by another thread, and no handler refers to it. */
  lemma ReleasedAlive(es: seq<Event>, t: Session, r: Rid)
    requires Trace(EMPTY, es, t) && Enabled(t, Check(r))
    ensures t.reqs[r].destroyed == 0 && !t.reqs[r].dying
            <==> !t.reqs[r].freed || exists i :: i in t.handling && t.handling[i].r == r
  {
    DestroyedOnce(es, t, r);
    Reached(es, t);
    assert Counted(t.reqs[r], Mine(t.handling, r));
  }

  /** It is whenever a callback, registered for a marked request that no handler refers to,
      answers the request. */
  lemma AnsweredInCallback(s: Session, r: Rid) returns (t: Session)
    requires Enabled(s, Register(r, true)) && s.reqs[r].interrupted && s.reqs[r].ctr == 1
    ensures Trace(s, [Register(r, true), Free(r), Destroy(r)], t)
    ensures Enabled(t, Check(r)) && t.reqs[r].destroyed == s.reqs[r].destroyed + 1
    ensures Next(t, Check(r)).reqs[r].calls == s.reqs[r].calls + 1
  {
    hide Remove;
    var s1 := Next(s, Register(r, true));
    var s2 := Next(s1, Free(r));
    t := Next(s2, Destroy(r));
    Three(s, Register(r, true), Free(r), Destroy(r), s1, s2, t);
  }

  /** As in the run that begins with an INTERRUPT that overtook its request. */
  lemma AnsweredInCallbackOccurs(r: Rid, unique: nat, i: Iid) returns (t: Session)
    ensures Trace(EMPTY, [Interrupt(i, unique), Arrive(r, unique)] + [Register(r, true), Free(r), Destroy(r)], t)
    ensures Enabled(t, Check(r)) && t.reqs[r].destroyed == 1
  {
    var es := [Interrupt(i, unique), Arrive(r, unique)];
    var s1 := Next(EMPTY, es[0]);
    assert s1.interrupts == [Pending(i, unique)];
    var s := Next(s1, es[1]);
    assert s.reqs[r] == Fresh(unique, true);
    assert es[1..] == [es[1]] && [es[1]][1..] == [];
    assert Trace(s, [], s);
    assert Trace(s1, es[1..], s);
    t := AnsweredInCallback(s, r);
    Concat(EMPTY, es, s, [Register(r, true), Free(r), Destroy(r)], t);
  }

  // ---- every INTERRUPT has one fate ----

  function Waiting(l: seq<Pending>): set<Iid> { set p | p in l :: p.i }

  function Sent(es: seq<Event>): set<Iid> { set e | e in es && e.Interrupt? :: e.i }

  function Places(s: Session): set<Iid> {
    s.applied + s.dropped + s.answered + s.handling.Keys + Waiting(s.interrupts)
  }

  lemma {:induction false} WaitingWithout(l: seq<Pending>, k: nat)
    requires Apart(l) && k < |l|
    ensures Waiting(l) == Waiting(Without(l, k)) + {l[k].i} && l[k].i !in Waiting(Without(l, k))
  {
    var t := Without(l, k);
    forall p | p in l ensures p in t || p == l[k] {
      var j :| 0 <= j < |l| && l[j] == p;
      if j < k { assert t[j] == p; } else if j > k { assert t[j - 1] == p; }
    }
    forall p | p in t ensures p in l && p.i != l[k].i {
      var j :| 0 <= j < |t| && t[j] == p;
      assert t[j] == if j < k then l[j] else l[j + 1];
    }
  }

  lemma ArrivePlaces(s: Session, r: Rid, unique: nat)
    requires Inv(s) && OnePlace(s) && Enabled(s, Arrive(r, unique))
    ensures OnePlace(Next(s, Arrive(r, unique))) && Places(Next(s, Arrive(r, unique))) == Places(s)
  {
    hide Good, Mine;
    match FindPending(s.interrupts, unique)
    case Some(k) => WaitingWithout(s.interrupts, k);
    case None => if s.interrupts != [] { WaitingWithout(s.interrupts, 0); }
  }

  lemma InterruptPlaces(s: Session, i: Iid, target: nat)
    requires OnePlace(s) && Enabled(s, Interrupt(i, target))
    ensures OnePlace(Next(s, Interrupt(i, target))) && Places(Next(s, Interrupt(i, target))) == Places(s) + {i}
  {
    var t := Next(s, Interrupt(i, target));
    if |t.interrupts| > |s.interrupts| {
      assert forall p :: p in t.interrupts <==> p in s.interrupts || p == Pending(i, target);
    }
  }

  lemma StepPlaces(s: Session, e: Event)
    requires Inv(s) && OnePlace(s) && Enabled(s, e)
    ensures OnePlace(Next(s, e)) && Places(Next(s, e)) == Places(s) + Sent([e])
  {
    hide Inv;
    if e.Interrupt? {
      InterruptPlaces(s, e.i, e.target);
      assert Sent([e]) == {e.i};
    } else {
      assert Sent([e]) == {};
      if e.Arrive? { ArrivePlaces(s, e.r, e.unique); }
    }
  }

  /** At every moment of every run each INTERRUPT received is being handled, is waiting, was
      applied, was dropped as a duplicate or was answered EAGAIN: one of these, and no other. */
  lemma {:induction false} EveryInterruptOnce(s: Session, es: seq<Event>, t: Session)
    requires Inv(s) && OnePlace(s) && Trace(s, es, t)
    ensures OnePlace(t) && Places(t) == Places(s) + Sent(es)
    decreases |es|
  {
    hide Inv, Next, OnePlace, Places;
    if es != [] {
      StepKeeps(s, es[0]);
      StepPlaces(s, es[0]);
      EveryInterruptOnce(Next(s, es[0]), es[1..], t);
      assert Sent(es) == Sent([es[0]]) + Sent(es[1..]) by { assert es == [es[0]] + es[1..]; }
    }
  }
}
