/** lib/fuse_loop.c and lib/fuse_lowlevel.c: dispatching requests one after the other, with the
    INTERRUPTs that wait in between. */
module SessionLoop {
  import opened Options
  import opened Storage
  import opened Vectors
  import opened BufCopy
  import opened SendData
  import opened Requests
  import LittleEndian
  import Interrupts
  import Sequences

  /** What the session is set up for: whether INIT was seen, -o allow_root, and the opcodes
      that have a handler, WRITE perhaps the one that takes a buffer vector. */
  datatype Config = Config(gotInit: bool, denyOthers: bool, owner: nat, ops: set<nat>, writeBuf: bool)

  /** The error with which a request is refused before it gets to a handler, or 0. */
  function Refusal(cfg: Config, r: seq<Byte>): nat {
    if !cfg.gotInit && Opcode(r) != OP_INIT then EIO
    else if cfg.gotInit && Opcode(r) in {OP_INIT, OP_CUSE_INIT} then EIO
    else if cfg.denyOthers && Uid(r) != cfg.owner && Uid(r) != 0 && Opcode(r) !in FREE_FOR_ALL then EACCES
    else if Opcode(r) !in cfg.ops then ENOSYS
    else 0
  }

  /** The configuration after the handler of r: do_init of version 7 has seen INIT. */
  function After(cfg: Config, r: seq<Byte>): Config {
    if Refusal(cfg, r) == 0 && Opcode(r) == OP_INIT && Major(r) == 7 then cfg.(gotInit := true) else cfg
  }

  function AfterAll(cfg: Config, rs: seq<seq<Byte>>): Config {
    if rs == [] then cfg else After(AfterAll(cfg, rs[..|rs| - 1]), rs[|rs| - 1])
  }

  /** Requests that are always answered at once: those that are refused, and those whose
      handlers are modelled. */
  predicate Expects(cfg: Config, r: seq<Byte>) {
    Refusal(cfg, r) != 0 || Opcode(r) == OP_READ || (Opcode(r) == OP_WRITE && cfg.writeBuf)
  }

  /** The requests that are not refused when they come one after the other. */
  function Passed(cfg: Config, rs: seq<seq<Byte>>): seq<seq<Byte>> {
    if rs == [] then []
    else
      var n := |rs| - 1;
      if Refusal(AfterAll(cfg, rs[..n]), rs[n]) == 0 then Passed(cfg, rs[..n]) + [rs[n]] else Passed(cfg, rs[..n])
  }

  // ---- the INTERRUPTs that wait ----

  /** se->interrupts and se->list, and the configuration.  Of the requests only those are on
      the list between two rounds that a handler has kept to answer them later. */
  datatype Desk = Desk(cfg: Config, waiting: seq<seq<Byte>>, kept: seq<seq<Byte>>)

  function Pend(ws: seq<seq<Byte>>): (l: seq<Interrupts.Pending>)
    ensures |l| == |ws| && forall k :: 0 <= k < |ws| ==> l[k] == Interrupts.Pending(Number(ws[k]), Target(ws[k]))
  {
    seq(|ws|, k requires 0 <= k < |ws| => Interrupts.Pending(Number(ws[k]), Target(ws[k])))
  }

  /** check_interrupt for the request r: an INTERRUPT for it is taken out, or the oldest one is,
      and that is to be answered EAGAIN. */
  function Rest(ws: seq<seq<Byte>>, r: seq<Byte>): seq<seq<Byte>> {
    match Interrupts.FindPending(Pend(ws), Number(r))
    case Some(k) => Sequences.Without(ws, k)
    case None => if ws == [] then [] else ws[1..]
  }

  function Oldest(ws: seq<seq<Byte>>, r: seq<Byte>): Option<seq<Byte>> {
    if Interrupts.FindPending(Pend(ws), Number(r)).None? && ws != [] then Some(ws[0]) else None
  }

  /** This is the step of Interrupts. */
  lemma RestIsCheck(ws: seq<seq<Byte>>, r: seq<Byte>)
    ensures var t := Interrupts.CheckInterrupt(Interrupts.EMPTY.(interrupts := Pend(ws)), Number(r)).0;
            && t.interrupts == Pend(Rest(ws, r))
            && t.answered == match Oldest(ws, r) case None => {} case Some(i) => {Number(i)}
  {
    hide Interrupts.FindPending, Requests.Field;
    var t := Interrupts.CheckInterrupt(Interrupts.EMPTY.(interrupts := Pend(ws)), Number(r)).0;
    match Interrupts.FindPending(Pend(ws), Number(r))
    case Some(k) => assert t.interrupts == Pend(Rest(ws, r));
    case None => assert t.interrupts == Pend(Rest(ws, r));
  }

  /** do_interrupt: it is for a request that is on the list, or one like it waits, or it waits. */
  function Filed(d: Desk, r: seq<Byte>): seq<seq<Byte>> {
    if (exists q :: q in d.kept && Number(q) == Target(r)) || Interrupts.FindPending(Pend(d.waiting), Target(r)).Some?
    then d.waiting
    else d.waiting + [r]
  }

  /** So is this, when no request is kept. */
  lemma FiledIsInterrupt(d: Desk, r: seq<Byte>)
    requires d.kept == [] && !Interrupts.Known(Interrupts.EMPTY.(interrupts := Pend(d.waiting)), Number(r))
    ensures var s := Interrupts.EMPTY.(interrupts := Pend(d.waiting));
            Interrupts.Next(s, Interrupts.Interrupt(Number(r), Target(r))).interrupts == Pend(Filed(d, r))
  {
    hide Interrupts.FindPending, Requests.Field;
    if Interrupts.FindPending(Pend(d.waiting), Target(r)).None? {
      assert Pend(d.waiting + [r]) == Pend(d.waiting) + [Interrupts.Pending(Number(r), Target(r))];
    }
  }

  function Turned(d: Desk, r: seq<Byte>): seq<seq<Byte>> {
    if Opcode(r) == OP_INTERRUPT then Filed(d, r) else Rest(d.waiting, r)
  }

  ghost predicate Headed(rs: seq<seq<Byte>>) { forall r :: r in rs ==> IN_HEADER <= |r| }

  lemma TurnedHeaded(d: Desk, r: seq<Byte>)
    requires Headed(d.waiting) && IN_HEADER <= |r|
    ensures Headed(Turned(d, r))
  {
    hide Interrupts.FindPending, Requests.Field;
  }

  // ---- one request ----

  /** What was sent, as a difference. */
  lemma Difference(before: seq<seq<Byte>>, after: seq<seq<Byte>>, r: seq<Byte>)
    requires Answered(before, after, r)
    ensures |before| <= |after|
    ensures var a := after[|before|..];
            after == before + a && |a| <= 1 && (a != [] ==> AnswerTo(a[0], r)) && (after != before ==> a != [])
  {
    hide AnswerTo;
  }

  /** The header inr of r has been taken out of the pipe, if r is there. */
  ghost predicate Begun(se: Session, w: Where, inr: seq<Byte>, r: seq<Byte>)
    reads se, se.k
  {
    inr <= r && match w
    case InMemory(b) => se.Clean() && b == inr == r
    case InPipe(n) =>
      && se.linked == 0 && se.pipe.Some? && n == |r| && |inr| == Min(|r|, WRITE_HEADER)
      && Data(se.k.st, Fifo(se.pipe.value)) == r[|inr|..]
  }

  /** The first part of fuse_session_process_buf_int. */
  method TakeHeader(se: Session, w: Where, ghost r: seq<Byte>) returns (ok: bool, inr: seq<Byte>)
    requires Received(se, w, r) && IN_HEADER <= |r|
    modifies se`pipe, se`linked, se.k
    ensures !ok ==> se.Clean()
    ensures ok ==> Begun(se, w, inr, r) && IN_HEADER <= |inr| && inr == r[..|inr|]
    ensures ok ==> Opcode(inr) == Opcode(r) && Uid(inr) == Uid(r) && Number(inr) == Number(r)
    ensures se.k.reliable ==> ok
  {
    hide Requests.Field;
    if w.InMemory? {
      ok, inr := true, w.bytes;
      assert r[..|inr|] == inr;
    } else {
      ok, inr := TakeFromPipe(se, Min(w.size, WRITE_HEADER));
      if !ok { se.ClearPipe(); return; }
      if WRITE_HEADER <= |r| { FieldsInHeader(r, WRITE_HEADER); } else { assert r[..|r|] == r; }
    }
  }

  lemma SameTurn(d: Desk, q: seq<Byte>, r: seq<Byte>)
    requires Number(q) == Number(r)
    ensures Rest(d.waiting, q) == Rest(d.waiting, r) && Oldest(d.waiting, q) == Oldest(d.waiting, r)
  {
  }

  lemma SameRefusal(cfg: Config, q: seq<Byte>, r: seq<Byte>)
    requires Opcode(q) == Opcode(r) && Uid(q) == Uid(r)
    ensures Refusal(cfg, q) == Refusal(cfg, r)
  {
  }

  /** The part of fuse_session_process_buf_int after check_interrupt: the rest of the request is
      read, of which inr has come so far, and its handler called. */
  method Handle(se: Session, w: Where, inr: seq<Byte>, ghost r: seq<Byte>, writeBuf: bool, noSplice: bool)
    returns (seen: Option<seq<Byte>>, keep: bool)
    requires WellFormed(r) && Begun(se, w, inr, r)
    modifies se`pipe, se`linked, se`broken, se`sent, se`protoMinor, se`wantSpliceWrite, se.k
    ensures se.Clean() && Answered(old(se.sent), se.sent, r)
    ensures seen.Some? ==> seen.value == r
    ensures seen.Some? && Opcode(r) == OP_INTERRUPT ==> se.sent == old(se.sent)
    ensures keep ==> seen.Some? && se.sent == old(se.sent)
    ensures se.k.reliable ==> seen.Some?
    ensures se.k.reliable && (Opcode(r) == OP_READ || (Opcode(r) == OP_WRITE && writeBuf)) ==> se.sent != old(se.sent)
  {
    hide Requests.Field, Message, Answered, ReplyHeader, Slice;
    seen, keep := None, false;
    NotAnswered(se.sent, r);
    if |inr| < |r| { FieldsInHeader(r, WRITE_HEADER); } else { assert inr == r; }
    assert r[..|inr|] == inr;
    SameUnique(r, |inr|, se.sent);
    var whole := inr;
    if Opcode(inr) == OP_WRITE && writeBuf {
      seen := Some(inr + (if w.InPipe? then Data(se.k.st, Fifo(se.pipe.value)) else []));
      var cnt := DoWriteBuf(se, w, inr, noSplice);
      return;
    }
    if w.InPipe? && WRITE_HEADER < w.size {
      var ok, rest := TakeFromPipe(se, w.size - WRITE_HEADER);
      if !ok {
        var errno: nat :| errno > 0;
        SendSmall(se, inr, errno, []);
        se.ClearPipe();
        return;
      }
      whole := inr + rest;
    }
    assert whole == r;
    seen := Some(whole);
    if Opcode(whole) == OP_READ {
      var d, e := ReadHandler(se, whole, noSplice);
    } else if Opcode(whole) != OP_INTERRUPT {
      keep := OtherHandler(se, whole);
    }
  }

  /** Any other handler: it answers with whatever it likes, or not at all, and may keep the
      request; do_init may change what was negotiated. */
  method OtherHandler(se: Session, r: seq<Byte>) returns (keep: bool)
    requires se.Clean() && IN_HEADER <= |r|
    modifies se`sent, se`protoMinor, se`wantSpliceWrite, se.k
    ensures se.Clean() && Answered(old(se.sent), se.sent, r) && (keep ==> se.sent == old(se.sent))
  {
    hide Answered, Message, ReplyHeader;
    NotAnswered(se.sent, r);
    keep := *;
    if Opcode(r) == OP_INIT { se.protoMinor, se.wantSpliceWrite := *, *; }
    var silent := *;
    if !silent && !keep {
      var e: nat, reply: seq<Byte> :| true;
      SendSmall(se, r, e, reply);
    }
  }

  /** fuse_session_process_buf_int for a request r: what its handler saw, if it got to one, and
      the desk afterwards.  First the oldest INTERRUPT that waits may be answered (e), then r
      may be (a): each at most once, an INTERRUPT that is dealt with not at all. */
  method Process(se: Session, w: Where, ghost r: seq<Byte>, d: Desk, noSplice: bool)
    returns (seen: Option<seq<Byte>>, t: Desk, ghost e: seq<seq<Byte>>, ghost a: seq<seq<Byte>>, ghost reached: bool)
    requires Received(se, w, r) && WellFormed(r) && Headed(d.waiting)
    modifies se`pipe, se`linked, se`broken, se`sent, se`protoMinor, se`wantSpliceWrite, se.k
    ensures se.Clean() && se.sent == old(se.sent) + e + a && |e| <= 1 && |a| <= 1
    ensures seen.Some? ==> seen.value == r && reached
    ensures reached ==> Refusal(d.cfg, r) == 0
    ensures e != [] ==>
              && reached && Opcode(r) != OP_INTERRUPT && Oldest(d.waiting, r).Some?
              && e == [Message(ReplyHeader(d.waiting[0], EAGAIN), [])]
    ensures a != [] ==> AnswerTo(a[0], r) && (Opcode(r) == OP_INTERRUPT ==> !reached)
    ensures t.cfg == (if seen.Some? then After(d.cfg, r) else d.cfg) && Headed(t.waiting)
    ensures t.waiting == if reached then Turned(d, r) else d.waiting
    ensures t.kept == d.kept || (a == [] && seen.Some? && t.kept == d.kept + [r])
    ensures Refusal(d.cfg, r) != 0 ==>
              a in {[], [Message(ReplyHeader(r, Refusal(d.cfg, r)), [])], [Message(ReplyHeader(r, ENOMEM), [])]}
    ensures se.k.reliable ==> (seen.Some? <==> Refusal(d.cfg, r) == 0) && (Expects(d.cfg, r) ==> a != [])
    ensures se.k.reliable && Refusal(d.cfg, r) == 0 && Opcode(r) != OP_INTERRUPT && Oldest(d.waiting, r).Some? ==>
            e != []
  {
    hide Requests.Field, Message, Answered, ReplyHeader, Slice, AnswerTo, Rest, Filed, Oldest, Headed, After, Refusal;
    seen, t, e, a, reached := None, d, [], [], false;
    var ok, inr := TakeHeader(se, w, r);
    if !ok { return; }
    SameRefusal(d.cfg, inr, r);
    SameTurn(d, inr, r);
    var noMemory: bool :| se.k.reliable ==> !noMemory;
    var errno := if noMemory then ENOMEM else Refusal(d.cfg, inr);
    if errno != 0 {
      a := Refuse(se, w, inr, r, errno);
      return;
    }
    TurnedHeaded(d, r);
    if Opcode(inr) != OP_INTERRUPT {
      reached, t := true, d.(waiting := Rest(d.waiting, inr));
      e := AnswerOldest(se, d.waiting, inr);
    }
    ghost var before := se.sent;
    var keep;
    seen, keep := Handle(se, w, inr, r, d.cfg.writeBuf, noSplice);
    Difference(before, se.sent, r);
    a := se.sent[|before|..];
    if seen.Some? {
      if Opcode(seen.value) == OP_INTERRUPT { reached, t := true, d.(waiting := Filed(d, seen.value)); }
      t := t.(cfg := After(d.cfg, seen.value));
      if keep { t := t.(kept := t.kept + [seen.value]); }
    }
  }

  /** reply_err and clear_pipe of fuse_session_process_buf_int. */
  method Refuse(se: Session, w: Where, inr: seq<Byte>, ghost r: seq<Byte>, errno: nat) returns (ghost a: seq<seq<Byte>>)
    requires Begun(se, w, inr, r) && IN_HEADER <= |inr| && inr == r[..|inr|]
    modifies se`pipe, se`linked, se`sent, se.k
    ensures se.Clean() && se.sent == old(se.sent) + a
    ensures a == [] || (a == [Message(ReplyHeader(r, errno), [])] && AnswerTo(a[0], r))
    ensures se.k.reliable ==> a != []
  {
    hide Message, Answered, ReplyHeader, AnswerTo;
    SameUnique(r, |inr|, se.sent);
    SendSmall(se, inr, errno, []);
    Difference(old(se.sent), se.sent, r);
    a := se.sent[|old(se.sent)|..];
    if w.InPipe? { se.ClearPipe(); }
  }

  /** fuse_reply_err(intr, EAGAIN), if check_interrupt has given one. */
  method AnswerOldest(se: Session, ws: seq<seq<Byte>>, r: seq<Byte>) returns (ghost e: seq<seq<Byte>>)
    requires Headed(ws)
    modifies se`sent, se.k
    ensures se.k.st == old(se.k.st) && se.sent == old(se.sent) + e
    ensures e == [] || (Oldest(ws, r).Some? && e == [Message(ReplyHeader(ws[0], EAGAIN), [])])
    ensures se.k.reliable && Oldest(ws, r).Some? ==> e != []
  {
    hide Answered, Message, ReplyHeader, Interrupts.FindPending, Requests.Field;
    e := [];
    var oldest := Oldest(ws, r);
    if oldest.Some? {
      SendSmall(se, oldest.value, EAGAIN, []);
      if se.sent != old(se.sent) { e := [Message(ReplyHeader(ws[0], EAGAIN), [])]; }
    }
  }

  // ---- who is answered, and in which order ----

  /** Which request a message answers; late, if it is an INTERRUPT that had to wait. */
  datatype Credit = Credit(of: nat, late: bool)

  /** Every message answers a request, no request is answered twice, and those answered at once
      are answered in order, as are those answered late, which are INTERRUPTs told EAGAIN. */
  ghost predicate Attributed(rs: seq<seq<Byte>>, ms: seq<seq<Byte>>, cs: seq<Credit>) {
    && |cs| == |ms|
    && (forall k :: 0 <= k < |cs| ==> cs[k].of < |rs| && AnswerTo(ms[k], rs[cs[k].of]))
    && (forall k :: 0 <= k < |cs| && cs[k].late ==>
          Opcode(rs[cs[k].of]) == OP_INTERRUPT && Eagain(ms[k], rs[cs[k].of]))
    && (forall j, k :: 0 <= j < k < |cs| ==> cs[j].of != cs[k].of && (cs[j].late == cs[k].late ==> cs[j].of < cs[k].of))
  }

  ghost predicate Eagain(m: seq<Byte>, r: seq<Byte>) {
    IN_HEADER <= |r| && m == Message(ReplyHeader(r, EAGAIN), [])
  }

  /** The INTERRUPTs that wait are requests, in order, that have not been answered. */
  ghost predicate Queued(rs: seq<seq<Byte>>, ws: seq<seq<Byte>>, wi: seq<nat>, cs: seq<Credit>) {
    && |wi| == |ws|
    && (forall k :: 0 <= k < |wi| ==> wi[k] < |rs| && rs[wi[k]] == ws[k] && Opcode(ws[k]) == OP_INTERRUPT)
    && (forall j, k :: 0 <= j < k < |wi| ==> wi[j] < wi[k])
    && (forall j, k :: 0 <= j < |cs| && 0 <= k < |wi| ==> cs[j].of != wi[k] && (cs[j].late ==> cs[j].of < wi[k]))
  }

  lemma LaterRequest(rs: seq<seq<Byte>>, r: seq<Byte>, ms: seq<seq<Byte>>, cs: seq<Credit>, ws: seq<seq<Byte>>,
                     wi: seq<nat>)
    requires Attributed(rs, ms, cs) && Queued(rs, ws, wi, cs)
    ensures Attributed(rs + [r], ms, cs) && Queued(rs + [r], ws, wi, cs)
  {
    hide AnswerTo, Eagain, Opcode;
  }

  lemma AnsweredAtOnce(rs: seq<seq<Byte>>, r: seq<Byte>, ms: seq<seq<Byte>>, cs: seq<Credit>,
                       ws: seq<seq<Byte>>, wi: seq<nat>, m: seq<Byte>)
    requires Attributed(rs, ms, cs) && Queued(rs, ws, wi, cs) && AnswerTo(m, r)
    ensures Attributed(rs + [r], ms + [m], cs + [Credit(|rs|, false)])
    ensures Queued(rs + [r], ws, wi, cs + [Credit(|rs|, false)])
  {
    hide AnswerTo, Eagain, Opcode;
  }

  lemma OldestAnswered(rs: seq<seq<Byte>>, ms: seq<seq<Byte>>, cs: seq<Credit>, ws: seq<seq<Byte>>, wi: seq<nat>,
                       m: seq<Byte>)
    requires Attributed(rs, ms, cs) && Queued(rs, ws, wi, cs) && ws != [] && Eagain(m, ws[0]) && AnswerTo(m, ws[0])
    ensures Attributed(rs, ms + [m], cs + [Credit(wi[0], true)])
    ensures Queued(rs, ws[1..], wi[1..], cs + [Credit(wi[0], true)])
  {
    hide AnswerTo, Eagain, Opcode;
  }

  lemma TakenOut(rs: seq<seq<Byte>>, cs: seq<Credit>, ws: seq<seq<Byte>>, wi: seq<nat>, k: nat)
    requires Queued(rs, ws, wi, cs) && k < |ws|
    ensures Queued(rs, Sequences.Without(ws, k), Sequences.Without(wi, k), cs)
  {
    hide Opcode;
    var i := Sequences.Without(wi, k);
    assert forall j :: 0 <= j < |i| ==> i[j] == if j < k then wi[j] else wi[j + 1];
  }

  lemma Waits(rs: seq<seq<Byte>>, r: seq<Byte>, ms: seq<seq<Byte>>, cs: seq<Credit>, ws: seq<seq<Byte>>, wi: seq<nat>)
    requires Attributed(rs, ms, cs) && Queued(rs, ws, wi, cs) && Opcode(r) == OP_INTERRUPT
    ensures Queued(rs + [r], ws + [r], wi + [|rs|], cs)
  {
    hide AnswerTo, Eagain, Opcode;
  }

  /** The INTERRUPTs that still wait after check_interrupt, and the answer to the oldest. */
  lemma Turn(rs: seq<seq<Byte>>, r: seq<Byte>, ms: seq<seq<Byte>>, cs: seq<Credit>, ws: seq<seq<Byte>>, wi: seq<nat>,
             e: seq<seq<Byte>>) returns (cs': seq<Credit>, wi': seq<nat>)
    requires Attributed(rs, ms, cs) && Queued(rs, ws, wi, cs) && Headed(ws)
    requires e == [] || (Oldest(ws, r).Some? && e == [Message(ReplyHeader(ws[0], EAGAIN), [])])
    ensures Attributed(rs, ms + e, cs') && Queued(rs, Rest(ws, r), wi', cs')
    ensures forall c :: c in cs ==> c in cs'
  {
    hide AnswerTo, Opcode, Attributed, Queued, Message, ReplyHeader, Interrupts.FindPending;
    assert ms + [] == ms;
    cs', wi' := cs, wi;
    match Interrupts.FindPending(Pend(ws), Number(r)) {
      case Some(k) =>
        SameLength(rs, ws, wi, cs);
        TakenOut(rs, cs, ws, wi, k);
        wi' := Sequences.Without(wi, k);
      case None =>
        if ws != [] {
          SameLength(rs, ws, wi, cs);
          if e == [] {
            TakenOut(rs, cs, ws, wi, 0);
            assert Sequences.Without(ws, 0) == ws[1..];
            wi' := Sequences.Without(wi, 0);
          } else {
            MessageAnswers(ws[0], EAGAIN, []);
            OldestAnswered(rs, ms, cs, ws, wi, e[0]);
            cs', wi' := cs + [Credit(wi[0], true)], wi[1..];
          }
        }
    }
  }

  lemma SameLength(rs: seq<seq<Byte>>, ws: seq<seq<Byte>>, wi: seq<nat>, cs: seq<Credit>)
    requires Queued(rs, ws, wi, cs)
    ensures |wi| == |ws|
  {
  }

  /** One more request, as Process deals with it. */
  lemma Onwards(rs: seq<seq<Byte>>, r: seq<Byte>, ms: seq<seq<Byte>>, cs: seq<Credit>, d: Desk, wi: seq<nat>,
                e: seq<seq<Byte>>, a: seq<seq<Byte>>, reached: bool) returns (cs'': seq<Credit>, wi'': seq<nat>)
    requires Attributed(rs, ms, cs) && Queued(rs, d.waiting, wi, cs) && Headed(d.waiting)
    requires e != [] ==> reached && Opcode(r) != OP_INTERRUPT && Oldest(d.waiting, r).Some? &&
                         e == [Message(ReplyHeader(d.waiting[0], EAGAIN), [])]
    requires |a| <= 1 && (a != [] ==> AnswerTo(a[0], r) && (Opcode(r) == OP_INTERRUPT ==> !reached))
    ensures Attributed(rs + [r], ms + e + a, cs'')
    ensures Queued(rs + [r], if reached then Turned(d, r) else d.waiting, wi'', cs'')
    ensures a != [] ==> Credit(|rs|, false) in cs''
    ensures forall c :: c in cs ==> c in cs''
  {
    hide AnswerTo, Opcode, Attributed, Queued, Message, ReplyHeader, Rest, Oldest, Headed;
    var cs', wi' := cs, wi;
    var ws := d.waiting;
    assert ms + [] == ms && ms + e + [] == ms + e;
    if reached && Opcode(r) != OP_INTERRUPT {
      cs', wi' := Turn(rs, r, ms, cs, ws, wi, e);
      ws := Rest(ws, r);
    }
    LaterRequest(rs, r, ms + e, cs', ws, wi');
    cs'', wi'' := cs', wi';
    if a != [] {
      assert a == [a[0]];
      AnsweredAtOnce(rs, r, ms + e, cs', ws, wi', a[0]);
      cs'' := cs' + [Credit(|rs|, false)];
    } else if reached && Opcode(r) == OP_INTERRUPT && Filed(d, r) != d.waiting {
      Waits(rs, r, ms + e, cs', ws, wi');
      wi'' := wi' + [|rs|];
    }
  }

  // ---- the loop ----

  /** s can be had from t by leaving elements out. */
  predicate Subsequence<T(==)>(s: seq<T>, t: seq<T>) {
    if s == [] then true
    else if t == [] then false
    else if s[|s| - 1] == t[|t| - 1] && Subsequence(s[..|s| - 1], t[..|t| - 1]) then true
    else Subsequence(s, t[..|t| - 1])
  }

  /** What Process makes of a request: the clauses of its contract that do not speak of the pipe. */
  ghost predicate Outcome(d: Desk, r: seq<Byte>, seen: Option<seq<Byte>>, t: Desk,
                          e: seq<seq<Byte>>, a: seq<seq<Byte>>, reached: bool) {
    && (seen.Some? ==> seen.value == r && reached)
    && (reached ==> Refusal(d.cfg, r) == 0)
    && (e != [] ==>
          && reached && Opcode(r) != OP_INTERRUPT && Oldest(d.waiting, r).Some? && IN_HEADER <= |d.waiting[0]|
          && e == [Message(ReplyHeader(d.waiting[0], EAGAIN), [])])
    && |a| <= 1 && (a != [] ==> AnswerTo(a[0], r) && (Opcode(r) == OP_INTERRUPT ==> !reached))
    && t.cfg == (if seen.Some? then After(d.cfg, r) else d.cfg) && Headed(t.waiting)
    && t.waiting == if reached then Turned(d, r) else d.waiting
  }

  /** And if nothing fails. */
  ghost predicate Smooth(d: Desk, r: seq<Byte>, seen: Option<seq<Byte>>, a: seq<seq<Byte>>) {
    (seen.Some? <==> Refusal(d.cfg, r) == 0) && (Expects(d.cfg, r) ==> a != [])
  }

  /** One round of fuse_session_loop: receive and process. */
  method Cycle(se: Session, splice: bool, d: Desk, noSplice: bool, bufSize: nat, q: seq<seq<Byte>>)
    returns (seen: Option<seq<Byte>>, n: nat, go: bool, t: Desk,
             ghost e: seq<seq<Byte>>, ghost a: seq<seq<Byte>>, ghost reached: bool)
    requires se.Clean() && (|q| > 0 ==> WellFormed(q[0])) && Headed(d.waiting)
    modifies se`pipe, se`linked, se`broken, se`sent, se`protoMinor, se`wantSpliceWrite, se.k
    ensures go ==> se.Clean()
    ensures n <= 1 && n <= |q| && se.sent == old(se.sent) + e + a
    ensures n == 0 ==> seen == None && e == a == [] && t == d
    ensures n == 1 ==> Outcome(d, q[0], seen, t, e, a, reached)
    ensures se.k.reliable && |q| > 0 && |q[0]| <= bufSize ==> go && n == 1 && Smooth(d, q[0], seen, a)
  {
    hide Requests.Field, Data, Answered, Refusal, Message, ReplyHeader, AnswerTo, Turned, After, Interrupts.FindPending;
    e, a, reached, t := [], [], false, d;
    var res, w;
    res, w, n := Receive(se, splice, bufSize, q);
    seen, go := None, res == -EINTR || 0 < res;
    if 0 < res { seen, t, e, a, reached := Process(se, w, q[0], d, noSplice); }
  }

  /** Every request that is always answered has been. */
  ghost predicate Covered(cfg: Config, rs: seq<seq<Byte>>, cs: seq<Credit>) {
    forall k :: 0 <= k < |rs| && Expects(AfterAll(cfg, rs[..k]), rs[k]) ==> Credit(k, false) in cs
  }

  lemma CoveredNext(cfg: Config, rs: seq<seq<Byte>>, r: seq<Byte>, cs: seq<Credit>, cs': seq<Credit>)
    requires Covered(cfg, rs, cs) && (forall c :: c in cs ==> c in cs')
    requires Expects(AfterAll(cfg, rs), r) ==> Credit(|rs|, false) in cs'
    ensures Covered(cfg, rs + [r], cs')
  {
    hide Expects, AfterAll;
    forall k | 0 <= k < |rs + [r]| && Expects(AfterAll(cfg, (rs + [r])[..k]), (rs + [r])[k])
      ensures Credit(k, false) in cs'
    {
      assert (rs + [r])[..k] == rs[..k];
    }
  }

  lemma OneMore(cfg: Config, rs: seq<seq<Byte>>, r: seq<Byte>)
    ensures AfterAll(cfg, rs + [r]) == After(AfterAll(cfg, rs), r)
    ensures Passed(cfg, rs + [r]) == Passed(cfg, rs) + if Refusal(AfterAll(cfg, rs), r) == 0 then [r] else []
  {
    hide Refusal, After;
    assert (rs + [r])[..|rs|] == rs;
  }

  lemma NotYet(cfg: Config)
    ensures Passed(cfg, []) == [] && AfterAll(cfg, []) == cfg && Covered(cfg, [], [])
    ensures Attributed([], [], []) && Queued([], [], [], [])
  {
  }

  /** A refused request leaves the configuration alone. */
  lemma RefusedChangesNothing(cfg: Config, r: seq<Byte>)
    ensures Refusal(cfg, r) != 0 ==> After(cfg, r) == cfg
    ensures After(cfg, r) == cfg || After(cfg, r) == cfg.(gotInit := true)
  {
  }

  /** Only INIT having been seen makes a difference to a session's configuration. */
  predicate Stage(cfg: Config, c: Config) { c == cfg || c == cfg.(gotInit := true) }

  /** What was seen and sent while the requests rs were used up, and what the desk is then. */
  ghost predicate SoFar(cfg: Config, rs: seq<seq<Byte>>, seen: seq<seq<Byte>>, ms: seq<seq<Byte>>, cs: seq<Credit>,
                        d: Desk, wi: seq<nat>) {
    && Subsequence(seen, rs) && Stage(cfg, d.cfg) && Headed(d.waiting)
    && (forall r :: r in seen ==> exists c :: Stage(cfg, c) && Refusal(c, r) == 0)
    && Attributed(rs, ms, cs) && Queued(rs, d.waiting, wi, cs)
  }

  /** The same, if nothing has failed. */
  ghost predicate Exactly(cfg: Config, rs: seq<seq<Byte>>, seen: seq<seq<Byte>>, cs: seq<Credit>, d: Desk) {
    seen == Passed(cfg, rs) && d.cfg == AfterAll(cfg, rs) && Covered(cfg, rs, cs)
  }

  lemma AtFirst(start: Desk, queue: seq<seq<Byte>>)
    requires start.waiting == []
    ensures SoFar(start.cfg, queue[..0], [], [], [], start, []) && Exactly(start.cfg, queue[..0], [], [], start)
  {
    assert queue[..0] == [];
    SubsequenceNone(queue[..0]);
    NotYet(start.cfg);
  }

  lemma SoFarNext(cfg: Config, rs: seq<seq<Byte>>, seen: seq<seq<Byte>>, ms: seq<seq<Byte>>, cs: seq<Credit>, d: Desk,
                  wi: seq<nat>, r: seq<Byte>, one: Option<seq<Byte>>, t: Desk, e: seq<seq<Byte>>, a: seq<seq<Byte>>,
                  reached: bool) returns (cs': seq<Credit>, wi': seq<nat>)
    requires SoFar(cfg, rs, seen, ms, cs, d, wi) && Outcome(d, r, one, t, e, a, reached)
    ensures SoFar(cfg, rs + [r], if one.Some? then seen + [one.value] else seen, ms + e + a, cs', t, wi')
    ensures Exactly(cfg, rs, seen, cs, d) && Smooth(d, r, one, a) ==>
              Exactly(cfg, rs + [r], if one.Some? then seen + [one.value] else seen, cs', t)
  {
    hide Subsequence, Attributed, Queued, Covered, AnswerTo, Passed, AfterAll, Refusal, After;
    hide Message, ReplyHeader, Turned, Oldest, Headed, Opcode;
    SubsequenceMore(seen, rs, r);
    cs', wi' := Onwards(rs, r, ms, cs, d, wi, e, a, reached);
    OneMore(cfg, rs, r);
    RefusedChangesNothing(d.cfg, r);
    if Exactly(cfg, rs, seen, cs, d) && Smooth(d, r, one, a) { CoveredNext(cfg, rs, r, cs, cs'); }
  }

  lemma InTheEnd(cfg: Config, rs: seq<seq<Byte>>, seen: seq<seq<Byte>>, ms: seq<seq<Byte>>, cs: seq<Credit>, d: Desk,
                 wi: seq<nat>)
    requires SoFar(cfg, rs, seen, ms, cs, d, wi)
    ensures Subsequence(seen, rs) && Attributed(rs, ms, cs)
    ensures forall r :: r in seen ==> exists c :: Stage(cfg, c) && Refusal(c, r) == 0
    ensures Exactly(cfg, rs, seen, cs, d) ==> seen == Passed(cfg, rs) && Covered(cfg, rs, cs)
  {
  }

  lemma StillHeaded(cfg: Config, rs: seq<seq<Byte>>, seen: seq<seq<Byte>>, ms: seq<seq<Byte>>, cs: seq<Credit>, d: Desk,
                    wi: seq<nat>)
    requires SoFar(cfg, rs, seen, ms, cs, d, wi)
    ensures Headed(d.waiting)
  {
  }

  /** fuse_session_loop, for any number of rounds, from the start of a session or later, when no
      INTERRUPT waits.  Every handler saw one whole request of the queue that is not refused,
      in order and unmixed, and every receive found a clean pipe; what was sent are answers to
      these requests, as cs says: none answered twice, those answered at once in order, and
      those answered late in order.  If nothing fails handlers saw exactly the requests that
      are not refused, INIT opening the way for those after it, and all that are always
      answered were. */
  method Run(se: Session, start: Desk, noSplice: bool, bufSize: nat, queue: seq<seq<Byte>>, rounds: nat)
    returns (seen: seq<seq<Byte>>, taken: nat, ghost cs: seq<Credit>)
    requires se.Clean() && start.waiting == [] && forall r :: r in queue ==> WellFormed(r)
    modifies se`pipe, se`linked, se`broken, se`sent, se`protoMinor, se`wantSpliceWrite, se.k
    ensures taken <= |queue| && Subsequence(seen, queue[..taken])
    ensures forall r :: r in seen ==> exists c :: Stage(start.cfg, c) && Refusal(c, r) == 0
    ensures old(se.sent) <= se.sent && Attributed(queue[..taken], se.sent[|old(se.sent)|..], cs)
    ensures se.k.reliable && rounds <= |queue| && (forall r :: r in queue ==> |r| <= bufSize) ==>
              && taken == rounds && seen == Passed(start.cfg, queue[..rounds])
              && Covered(start.cfg, queue[..rounds], cs)
  {
    hide Subsequence, Data, WellFormed, Attributed, Covered, Passed, AfterAll, Refusal, SoFar, Outcome, Smooth, Headed;
    hide Stage, Exactly;
    seen, taken, cs := [], 0, [];
    AtFirst(start, queue);
    var d, left, go := start, rounds, true;
    ghost var wi: seq<nat>, ms: seq<seq<Byte>> := [], [];
    ghost var good := se.k.reliable && rounds <= |queue| && forall r :: r in queue ==> |r| <= bufSize;
    while left > 0 && go
      invariant 0 <= left <= rounds && taken <= |queue| && (go ==> se.Clean()) && se.sent == old(se.sent) + ms
      invariant SoFar(start.cfg, queue[..taken], seen, ms, cs, d, wi)
      invariant good ==> go && taken + left == rounds && Exactly(start.cfg, queue[..taken], seen, cs, d)
    {
      var splice: bool := *;
      if taken < |queue| { assert queue[taken] in queue; }
      StillHeaded(start.cfg, queue[..taken], seen, ms, cs, d, wi);
      var one, n, t;
      ghost var e, a, reached;
      one, n, go, t, e, a, reached := Cycle(se, splice, d, noSplice, bufSize, queue[taken..]);
      if n == 1 {
        assert queue[..taken + 1] == queue[..taken] + [queue[taken]];
        cs, wi := SoFarNext(start.cfg, queue[..taken], seen, ms, cs, d, wi, queue[taken], one, t, e, a, reached);
      }
      assert n == 0 ==> ms + e + a == ms;
      d, ms := t, ms + e + a;
      if one.Some? { seen := seen + [one.value]; }
      taken, left := taken + n, left - 1;
    }
    InTheEnd(start.cfg, queue[..taken], seen, ms, cs, d, wi);
    assert se.sent[|old(se.sent)|..] == ms;
  }

  lemma SubsequenceNone<T>(t: seq<T>)
    ensures Subsequence([], t)
  {
  }

  lemma SubsequenceMore<T>(s: seq<T>, t: seq<T>, x: T)
    requires Subsequence(s, t)
    ensures Subsequence(s, t + [x]) && Subsequence(s + [x], t + [x])
  {
    assert (t + [x])[..|t|] == t && (s + [x])[..|s|] == s;
  }
}
