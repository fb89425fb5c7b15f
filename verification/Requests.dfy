/** lib/fuse_lowlevel.c: receiving requests through the thread's pipe, answering READs and
    WRITEs, and the state the pipe is left in. */
module Requests {
  import opened Options
  import opened Storage
  import opened Vectors
  import opened BufCopy
  import opened SendData
  import LittleEndian

  const IN_HEADER := 40                  // sizeof(struct fuse_in_header)
  const WRITE_HEADER := 80               // and of struct fuse_write_in after it
  const OP_READ := 15
  const OP_WRITE := 16
  const OP_INIT := 26
  const OP_INTERRUPT := 36
  const OP_CUSE_INIT := 4096
  const OP_NOTIFY_REPLY := 41
  /** READ, WRITE, RELEASE, FSYNC, INIT, READDIR, RELEASEDIR, FSYNCDIR, NOTIFY_REPLY, READDIRPLUS */
  const FREE_FOR_ALL: set<nat> := {15, 16, 18, 20, 26, 28, 29, 30, 41, 44}
  const EINTR := 4
  const EBADF := 9
  const EACCES := 13
  const ENOSYS := 38
  const ERANGE := 34

  function Field(r: seq<Byte>, at: nat, n: nat): nat {
    LittleEndian.Decode(Slice(r, at, n))
  }

  function Opcode(r: seq<Byte>): nat { Field(r, 4, 4) }
  function Number(r: seq<Byte>): nat { Field(r, 8, 8) }     // unique, as a number
  function Uid(r: seq<Byte>): nat { Field(r, 24, 4) }
  function Handle(r: seq<Byte>): nat { Field(r, 40, 8) }
  function Offset(r: seq<Byte>): nat { Field(r, 48, 8) }
  function DataSize(r: seq<Byte>): nat { Field(r, 56, 4) }
  function Target(r: seq<Byte>): nat { Field(r, 40, 8) }    // of an INTERRUPT: the unique it is for
  function Major(r: seq<Byte>): nat { Field(r, 40, 4) }     // of an INIT: the protocol version

  function Unique(r: seq<Byte>): seq<Byte> { Slice(r, 8, 8) }

  /** struct fuse_out_header for the request r, its length left open; an error out of range
      becomes ERANGE. */
  function ReplyHeader(r: seq<Byte>, errno: nat): (h: seq<Byte>)
    requires IN_HEADER <= |r|
    ensures |h| == HEADER && h[8..16] == Unique(r)
  {
    var error := if errno == 0 then 0 else 0x1_0000_0000 - if errno < 1000 then errno else ERANGE;
    LittleEndian.Encode(0, 4) + LittleEndian.Encode(error, 4) + r[8..16]
  }

  /** What fuse_reply_write, or fuse_reply_err, says about a WRITE. */
  function WriteReply(r: seq<Byte>, cnt: int): seq<Byte>
    requires IN_HEADER <= |r|
  {
    if cnt < 0 then Message(ReplyHeader(r, -cnt), [])
    else Message(ReplyHeader(r, 0), LittleEndian.Encode(cnt, 4) + LittleEndian.Encode(0, 4))
  }

  /** A message that the kernel takes as the answer to r. */
  predicate AnswerTo(m: seq<Byte>, r: seq<Byte>) { HEADER <= |m| && Accepted(m) && m[8..16] == Unique(r) }

  /** At most one message was sent, and it answers r. */
  ghost predicate Answered(before: seq<seq<Byte>>, after: seq<seq<Byte>>, r: seq<Byte>) {
    after == before || (|after| == |before| + 1 && after[..|before|] == before && AnswerTo(after[|before|], r))
  }

  lemma MessageAnswers(r: seq<Byte>, errno: nat, d: seq<Byte>)
    requires IN_HEADER <= |r|
    ensures AnswerTo(Message(ReplyHeader(r, errno), d), r)
    ensures forall before: seq<seq<Byte>> :: Answered(before, before + [Message(ReplyHeader(r, errno), d)], r)
  {
    hide LittleEndian.Encode;
    var h := ReplyHeader(r, errno);
    MessageAccepted(h, d);
    assert Message(h, d)[8..16] == h[8..16];
  }

  /** What the kernel sends: no reply to a notification, and a WRITE whose size field is the
      size of the data that follows. */
  predicate WellFormed(r: seq<Byte>) {
    && IN_HEADER <= |r|
    && Opcode(r) != OP_NOTIFY_REPLY
    && (Opcode(r) == OP_WRITE ==> WRITE_HEADER <= |r| && DataSize(r) == |r| - WRITE_HEADER)
  }

  /** The fields of a WRITE lie within its two headers. */
  lemma FieldsInHeader(r: seq<Byte>, n: nat)
    requires WRITE_HEADER <= n <= |r|
    ensures Opcode(r[..n]) == Opcode(r) && Handle(r[..n]) == Handle(r) && Uid(r[..n]) == Uid(r)
    ensures Number(r[..n]) == Number(r)
    ensures Offset(r[..n]) == Offset(r) && DataSize(r[..n]) == DataSize(r)
  {
    assert Slice(r[..n], 4, 4) == Slice(r, 4, 4);
    assert Slice(r[..n], 8, 8) == Slice(r, 8, 8);
    assert Slice(r[..n], 24, 4) == Slice(r, 24, 4);
    assert Slice(r[..n], 40, 8) == Slice(r, 40, 8);
    assert Slice(r[..n], 48, 8) == Slice(r, 48, 8);
    assert Slice(r[..n], 56, 4) == Slice(r, 56, 4);
  }

  /** Where a received request is: in the loop's own memory, or still in the pipe. */
  datatype Where = InMemory(bytes: seq<Byte>) | InPipe(size: nat)

  /** The request r has been received, and nothing else is left in the pipe. */
  ghost predicate Received(se: Session, w: Where, r: seq<Byte>)
    reads se, se.k
  {
    match w
    case InMemory(b) => se.Clean() && b == r
    case InPipe(n) => se.linked == 0 && se.pipe.Some? && Data(se.k.st, Fifo(se.pipe.value)) == r && n == |r|
  }

  /** Reads up to n bytes of the pipe into the memory b. */
  method ReadPipe(se: Session, b: Buf, n: nat) returns (res: int)
    requires se.linked == 0 && se.pipe.Some? && b.Mem? && b.Allocated(se.k.st)
    modifies se.k
    ensures res <= b.size && res <= n && res <= |Data(old(se.k.st), Fifo(se.pipe.value))|
    ensures var c: nat := if res < 0 then 0 else res;
      var p := Pipe(n, se.pipe.value, false);
      se.k.st == Put(b, 0, Data(old(se.k.st), p.Key())[..c], Consume(p, c, old(se.k.st)))
    ensures se.k.reliable ==> res == Min(b.size, Min(n, |Data(old(se.k.st), Fifo(se.pipe.value))|))
  {
    hide Put, Consume, Drain, Scatter, Skip, Avoids, Apart, Peek;
    var p := Pipe(n, se.pipe.value, false);
    var dst := new BufVec(b);
    var src := new BufVec(p);
    NewView(dst, b);
    NewView(src, p);
    ghost var lost;
    ghost var st0 := se.k.st;
    res, lost := Copy(se.k, dst, src, CopyFlags(false, false));
    NothingLost(lost, [p], b, CopyFlags(false, false));
    var c: nat := if res < 0 then 0 else res;
    OnePipe(p, c, b, st0);
  }

  lemma OnePipe(p: Buf, c: nat, b: Buf, st: Store)
    requires p.Pipe? && c <= |Flat(Cons(p, Nil), st)| && c <= b.size
    ensures |Flat(Cons(p, Nil), st)| == Min(p.size, |Data(st, p.Key())|)
    ensures Flat(Cons(p, Nil), st)[..c] == Data(st, p.Key())[..c]
    ensures Scatter(Cons(b, Nil), Flat(Cons(p, Nil), st)[..c], Drain(Cons(p, Nil), c, st)) ==
            Put(b, 0, Data(st, p.Key())[..c], Consume(p, c, st))
  {
  }

  /** fuse_ll_copy_from_pipe: the next n bytes of the pipe, or an error. */
  method TakeFromPipe(se: Session, n: nat) returns (ok: bool, data: seq<Byte>)
    requires se.linked == 0 && se.pipe.Some?
    modifies se.k
    ensures ok ==> n <= |Data(old(se.k.st), Fifo(se.pipe.value))|
    ensures ok ==> data == Data(old(se.k.st), Fifo(se.pipe.value))[..n]
    ensures ok ==> Data(se.k.st, Fifo(se.pipe.value)) == Data(old(se.k.st), Fifo(se.pipe.value))[n..]
    ensures forall o: Obj :: o != Fifo(se.pipe.value) ==> Data(se.k.st, o) == Data(old(se.k.st), o)
    ensures se.k.reliable && n <= |Data(old(se.k.st), Fifo(se.pipe.value))| ==> ok
  {
    data := [];
    ok :| se.k.reliable ==> ok;
    if !ok { return; }
    ghost var st0 := se.k.st;
    var a := se.k.Malloc(n);
    var b := Mem(n, a, 0);
    var res := ReadPipe(se, b, n);
    if res < n {
      ok := false;
    } else {
      data := Data(se.k.st, Block(a))[..n];
    }
    se.k.Free(a);
  }

  /** A reply to r without a buffer vector, from a header on the stack. */
  method SendSmall(se: Session, r: seq<Byte>, errno: nat, d: seq<Byte>)
    requires IN_HEADER <= |r|
    modifies se`sent, se.k
    ensures se.k.st == old(se.k.st)
    ensures se.sent == old(se.sent) || se.sent == old(se.sent) + [Message(ReplyHeader(r, errno), d)]
    ensures se.k.reliable ==> se.sent != old(se.sent)
    ensures Answered(old(se.sent), se.sent, r)
  {
    hide Message, Answered, ReplyHeader, AnswerTo;
    var a := se.k.Malloc(HEADER);
    var h := ReplyHeader(r, errno);
    se.k.st := se.k.st[Block(a) := h];
    assert h[..HEADER] == h;
    var res := se.SendMsg(Mem(HEADER, a, 0), d);
    MessageAnswers(r, errno, d);
    NotAnswered(old(se.sent), r);
    se.k.Free(a);
  }

  lemma NotAnswered(sent: seq<seq<Byte>>, r: seq<Byte>)
    ensures Answered(sent, sent, r)
  {
  }

  /** fuse_session_receive_buf_int: the next request of the queue, or an error. */
  method Receive(se: Session, splice: bool, bufSize: nat, q: seq<seq<Byte>>) returns (res: int, w: Where, n: nat)
    requires se.Clean()
    modifies se`pipe, se`linked, se.k
    ensures 0 < res ==> n == 1 <= |q| && res == |q[0]| && IN_HEADER <= res <= bufSize && Received(se, w, q[0])
    ensures res == -EINTR ==> se.Clean()
    ensures n <= |q| && n <= 1
    ensures se.k.reliable && |q| > 0 && IN_HEADER <= |q[0]| <= bufSize ==> 0 < res
  {
    w, n := InMemory([]), 0;
    var piped := false;
    if se.protoMinor >= 14 && splice {
      piped := se.GetPipe();
      var fits: bool := *;   // the pipe is, or could be made, large enough
      piped := piped && fits;
    }
    var fails: bool :| se.k.reliable && |q| > 0 ==> !fails;
    if fails || q == [] || |q[0]| > bufSize {
      res :| res <= 0;       // nothing has been read
      return;
    }
    n := 1;
    if !piped {
      res, w := |q[0]|, InMemory(q[0]);
      if |q[0]| < IN_HEADER { res := -EIO; }
      return;
    }
    se.k.st := se.k.st[Fifo(se.pipe.value) := q[0]];
    var exited: bool :| se.k.reliable ==> !exited;
    if exited { return 0, w, n; }
    res := |q[0]|;
    if res < IN_HEADER { return -EIO, w, n; }
    if res < WRITE_HEADER + se.pageSize {
      var noMemory: bool :| se.k.reliable ==> !noMemory;
      if noMemory { return -ENOMEM, w, n; }
      var ok, data := TakeFromPipe(se, res);
      if !ok {
        res :| res < 0;
        se.ClearPipe();
        return;
      }
      assert data == q[0];
      w := InMemory(data);
    } else {
      w := InPipe(res);
    }
  }

  /** What a WRITE carries. */
  ghost function Payload(se: Session, w: Where): seq<Byte>
    reads se, se.k
  {
    match w
    case InMemory(b) => if WRITE_HEADER <= |b| then b[WRITE_HEADER..] else []
    case InPipe(_) => if se.pipe.Some? then Data(se.k.st, Fifo(se.pipe.value)) else []
  }

  /** The write_buf handler of F3: in to the open file at the request's offset. */
  method WriteHandler(se: Session, in_: BufVec, r: seq<Byte>, fh: nat, off: nat, noSplice: bool) returns (cnt: int)
    requires IN_HEADER <= |r|
    requires in_.Valid() && AllAllocated(in_.bufs, se.k.st) && |in_.bufs| == 1 && in_.idx == 0 && in_.off == 0
    requires !in_.bufs[0].File? && |Peek(in_.bufs[0], 0, in_.bufs[0].size, se.k.st)| == in_.bufs[0].size
    modifies se`sent, se.k, in_`idx, in_`off
    ensures in_.idx <= 1 && cnt <= in_.bufs[0].size
    ensures se.sent == old(se.sent) || se.sent == old(se.sent) + [WriteReply(r, cnt)]
    ensures Answered(old(se.sent), se.sent, r) && (se.k.reliable ==> se.sent != old(se.sent))
    ensures var b := in_.bufs[0];
      var c: nat := if cnt < 0 then 0 else cnt;
      var d := Peek(b, 0, b.size, old(se.k.st));
      && Data(se.k.st, Inode(fh)) == Overlay(Data(old(se.k.st), Inode(fh)), off, d[..c])
      && (in_.idx == 1 <==> cnt == b.size)
      && (se.k.reliable ==> cnt == b.size)
      && (in_.idx == 1 && b.Pipe? ==> Data(se.k.st, b.Key()) == Data(old(se.k.st), b.Key())[b.size..])
    ensures forall o: Obj :: o != Inode(fh) && o != in_.bufs[0].Key() ==> Data(se.k.st, o) == Data(old(se.k.st), o)
  {
    hide Put, Consume, Drain, Scatter, Avoids, Apart, Data, Overlay, Slice, Flat, Skip, LittleEndian.Encode, Message;
    hide Answered, ReplyHeader;
    var b := in_.bufs[0];
    var size := BufSize(in_);
    var out := new BufVec(File(size, fh, off, false));
    ghost var f, st0 := out.bufs[0], se.k.st;
    NewView(in_, b);
    NewView(out, f);
    ghost var lost;
    cnt, lost := Copy(se.k, out, in_, CopyFlags(noSplice, false));
    ghost var c: nat := if cnt < 0 then 0 else cnt;
    WriteEffect(b, f, c, lost, st0);
    SkipEnd(Cons(b, Nil), c);
    SkipEnd(in_.View(), 0);
    if cnt < 0 {
      SendSmall(se, r, -cnt, []);
    } else {
      SendSmall(se, r, 0, LittleEndian.Encode(cnt, 4) + LittleEndian.Encode(0, 4));
    }
  }

  lemma SingleStream(b: Buf, f: Buf, c: nat, e: nat, st: Store)
    requires c + e <= |Flat(Cons(b, Nil), st)| && c <= f.size
    ensures Flat(Cons(b, Nil), st) == Peek(b, 0, b.size, st) && |Peek(b, 0, b.size, st)| <= b.size
    ensures Scatter(Cons(f, Nil), Flat(Cons(b, Nil), st)[..c], Drain(Cons(b, Nil), c + e, st)) ==
            Put(f, 0, Peek(b, 0, b.size, st)[..c], Consume(b, c + e, st))
  {
    hide Put, Consume, Peek, Data;
    PeekLength(b, 0, b.size, st);
  }

  lemma WriteEffect(b: Buf, f: Buf, c: nat, e: nat, st: Store)
    requires f.File? && !b.File? && c + e <= |Flat(Cons(b, Nil), st)| && c <= f.size
    ensures |Flat(Cons(b, Nil), st)| == |Peek(b, 0, b.size, st)| <= b.size
    ensures var d := Peek(b, 0, b.size, st);
      var st' := Scatter(Cons(f, Nil), Flat(Cons(b, Nil), st)[..c], Drain(Cons(b, Nil), c + e, st));
      && c + e <= |d|
      && Data(st', f.Key()) == Overlay(Data(st, f.Key()), f.pos, d[..c])
      && (b.Pipe? ==> c + e <= |Data(st, b.Key())| && Data(st', b.Key()) == Data(st, b.Key())[c + e..])
      && (forall o: Obj :: o != f.Key() && o != b.Key() ==> Data(st', o) == Data(st, o))
  {
    hide Flat, Drain, Scatter, Resize, Drop;
    SingleStream(b, f, c, e, st);
  }

  lemma PayloadInBlock(r: seq<Byte>, size: nat, b: Buf, st: Store)
    requires WRITE_HEADER + size <= |r| && b.Mem? && b.pos == WRITE_HEADER && Data(st, b.Key()) == r
    ensures Peek(b, 0, size, st) == r[WRITE_HEADER..WRITE_HEADER + size]
  {
  }

  /** The part of do_write_buf for a request in memory. */
  method WriteFromMemory(se: Session, r: seq<Byte>, size: nat, noSplice: bool) returns (cnt: int)
    requires se.Clean() && WRITE_HEADER + size <= |r|
    modifies se`sent, se.k
    ensures se.Clean() && cnt <= size
    ensures se.sent == old(se.sent) || se.sent == old(se.sent) + [WriteReply(r, cnt)]
    ensures Answered(old(se.sent), se.sent, r) && (se.k.reliable ==> se.sent != old(se.sent))
    ensures var c: nat := if cnt < 0 then 0 else cnt;
      Data(se.k.st, Inode(Handle(r))) ==
      Overlay(Data(old(se.k.st), Inode(Handle(r))), Offset(r), r[WRITE_HEADER..][..c])
  {
    hide Put, Consume, Overlay, Field, Message, Answered, ReplyHeader;
    var a := se.k.Malloc(|r|);
    se.k.st := se.k.st[Block(a) := r];
    var b := Mem(size, a, WRITE_HEADER);
    var bufv := new BufVec(b);
    ghost var st1 := se.k.st;
    cnt := WriteHandler(se, bufv, r, Handle(r), Offset(r), noSplice);
    ghost var c: nat := if cnt < 0 then 0 else cnt;
    PayloadInBlock(r, size, b, st1);
    assert r[WRITE_HEADER..WRITE_HEADER + size][..c] == r[WRITE_HEADER..][..c];
    assert se.pipe.Some? ==> Data(se.k.st, Fifo(se.pipe.value)) == Data(st1, Fifo(se.pipe.value));
    se.k.Free(a);
  }

  /** The part of do_write_buf for a request whose data is in the pipe. */
  method WriteFromPipe(se: Session, hdr: seq<Byte>, size: nat, noSplice: bool) returns (cnt: int)
    requires se.linked == 0 && se.pipe.Some? && size <= |Data(se.k.st, Fifo(se.pipe.value))| && IN_HEADER <= |hdr|
    modifies se`pipe, se`linked, se`sent, se.k
    ensures cnt <= size
    ensures se.sent == old(se.sent) || se.sent == old(se.sent) + [WriteReply(hdr, cnt)]
    ensures Answered(old(se.sent), se.sent, hdr) && (se.k.reliable ==> se.sent != old(se.sent))
    ensures var c: nat := if cnt < 0 then 0 else cnt;
      Data(se.k.st, Inode(Handle(hdr))) ==
      Overlay(Data(old(se.k.st), Inode(Handle(hdr))), Offset(hdr), Data(old(se.k.st), Fifo(old(se.pipe.value)))[..c])
    ensures size == |Data(old(se.k.st), Fifo(old(se.pipe.value)))| ==> se.Clean()
    ensures se.Clean() <==> !(cnt == size < |Data(old(se.k.st), Fifo(old(se.pipe.value)))|)
    ensures se.k.reliable ==> cnt == size
  {
    hide Put, Consume, Overlay, Field, Message, Answered, ReplyHeader;
    var b := Pipe(size, se.pipe.value, false);
    var bufv := new BufVec(b);
    ghost var st0, p := se.k.st, Data(se.k.st, Fifo(se.pipe.value));
    cnt := WriteHandler(se, bufv, hdr, Handle(hdr), Offset(hdr), noSplice);
    ghost var c: nat := if cnt < 0 then 0 else cnt;
    assert Peek(b, 0, size, st0)[..c] == p[..c];
    if bufv.idx < |bufv.bufs| { se.ClearPipe(); }
  }

  /** do_write_buf.  Afterwards the pipe is clean, unless the request announced fewer bytes
      than it carried and the handler took them all: then the rest stays in the pipe. */
  method DoWriteBuf(se: Session, w: Where, hdr: seq<Byte>, noSplice: bool) returns (cnt: int)
    requires WRITE_HEADER <= |hdr|
    requires w.InMemory? ==> se.Clean() && w.bytes == hdr
    requires w.InPipe? ==> se.linked == 0 && se.pipe.Some?
    requires w.InPipe? ==> w.size == WRITE_HEADER + |Data(se.k.st, Fifo(se.pipe.value))|
    modifies se`pipe, se`linked, se`sent, se.k
    ensures se.sent == old(se.sent) || se.sent == old(se.sent) + [WriteReply(hdr, cnt)]
    ensures Answered(old(se.sent), se.sent, hdr) && (se.k.reliable ==> se.sent != old(se.sent))
    ensures var p := old(Payload(se, w));
      var c: nat := if cnt < 0 then 0 else cnt;
      && c <= DataSize(hdr) && c <= |p|
      && Data(se.k.st, Inode(Handle(hdr))) == Overlay(Data(old(se.k.st), Inode(Handle(hdr))), Offset(hdr), p[..c])
    ensures DataSize(hdr) >= |old(Payload(se, w))| ==> se.Clean()
    ensures se.Clean() <==> !(w.InPipe? && cnt == DataSize(hdr) < |old(Payload(se, w))|)
    ensures se.k.reliable ==> (se.Clean() <==> !(w.InPipe? && DataSize(hdr) < |old(Payload(se, w))|))
  {
    hide Put, Consume, Overlay, Field, Message, Answered, ReplyHeader;
    var size := DataSize(hdr);
    var total := if w.InPipe? then w.size else |hdr|;
    ghost var p := Payload(se, w);
    cnt := -EIO;
    if total - WRITE_HEADER < size {
      SendSmall(se, hdr, EIO, []);
      NoOverlay(Data(se.k.st, Inode(Handle(hdr))), Offset(hdr), p);
      if w.InPipe? { se.ClearPipe(); }
    } else if w.InPipe? {
      cnt := WriteFromPipe(se, hdr, size, noSplice);
    } else {
      cnt := WriteFromMemory(se, hdr, size, noSplice);
    }
  }

  lemma NoOverlay(s: seq<Byte>, p: nat, d: seq<Byte>)
    ensures Overlay(s, p, d[..0]) == s
  {
  }

  /** The bytes of the open file that a READ asks for. */
  function Wanted(r: seq<Byte>, st: Store): seq<Byte> { Slice(Data(st, Inode(Handle(r))), Offset(r), DataSize(r)) }

  lemma FileStream(b: Buf, st: Store)
    requires b.File?
    ensures Flat(Cons(b, Nil), st) == Slice(Data(st, b.Key()), b.pos, b.size)
    ensures |Flat(Cons(b, Nil), st)| <= b.size
  {
    PeekLength(b, 0, b.size, st);
  }

  /** The read handler of F3 and fuse_reply_data: the reply is spliced from the open file.  It
      carries the file's bytes at the request's offset, or an error. */
  method ReadHandler(se: Session, r: seq<Byte>, noSplice: bool) returns (ghost d: seq<Byte>, ghost errno: nat)
    requires se.Clean() && IN_HEADER <= |r|
    modifies se`pipe, se`linked, se`broken, se`sent, se.k
    ensures se.Clean() && Answered(old(se.sent), se.sent, r)
    ensures d <= Wanted(r, old(se.k.st)) && (errno > 0 ==> d == [])
    ensures se.sent == old(se.sent) || se.sent == old(se.sent) + [Message(ReplyHeader(r, errno), d)]
    ensures se.k.reliable ==> se.sent != old(se.sent)
    ensures se.k.reliable && Inode(Handle(r)) in old(se.k.st) ==> errno == 0 && d == Wanted(r, old(se.k.st))
  {
    hide Field, Flat, Slice, Message, Answered, ReplyHeader;
    var b := File(DataSize(r), Handle(r), Offset(r), false);
    errno, d := 0, [];
    NotAnswered(se.sent, r);
    if b.Key() !in se.k.st {
      errno := EBADF;
      SendSmall(se, r, EBADF, []);
      return;
    }
    var a := se.k.Malloc(HEADER);
    var h := ReplyHeader(r, 0);
    se.k.st := se.k.st[Block(a) := h];
    assert h[..HEADER] == h;
    var v := new BufVec(b);
    NewView(v, b);
    FileStream(b, se.k.st);
    var res;
    res, d := se.SendDataIov(v, Mem(HEADER, a, 0), noSplice);
    se.k.Free(a);
    MessageAnswers(r, 0, d);
    if res > 0 {
      errno, d := res, [];
      SendSmall(se, r, res, []);
    }
  }

  /** The header of a request is enough to answer it. */
  lemma SameUnique(r: seq<Byte>, n: nat, sent: seq<seq<Byte>>)
    requires IN_HEADER <= n <= |r|
    ensures forall after :: Answered(sent, after, r[..n]) ==> Answered(sent, after, r)
    ensures forall errno :: ReplyHeader(r[..n], errno) == ReplyHeader(r, errno)
  {
    assert Slice(r[..n], 8, 8) == Slice(r, 8, 8);
    assert r[..n][8..16] == r[8..16];
  }
}
