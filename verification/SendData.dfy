/** lib/fuse_lowlevel.c: sending a reply whose data comes from a buffer vector, through the
    thread's pipe or through memory. */
module SendData {
  import opened Options
  import opened Storage
  import opened Vectors
  import opened BufCopy
  import LittleEndian

  const HEADER := 16   // sizeof(struct fuse_out_header)
  const EAGAIN := 11
  const EIO := 5
  const ENOMEM := 12

  /** The header h with its length field set. */
  function WithLen(h: seq<Byte>, n: nat): (r: seq<Byte>)
    requires |h| == HEADER
    ensures |r| == HEADER
  {
    LittleEndian.Encode(n, 4) + h[4..]
  }

  /** The reply with header h and data d. */
  function Message(h: seq<Byte>, d: seq<Byte>): seq<Byte>
    requires |h| == HEADER
  {
    WithLen(h, HEADER + |d|) + d
  }

  /** The kernel takes a message only if its length field is its length. */
  predicate Accepted(m: seq<Byte>) {
    HEADER <= |m| && m[..4] == LittleEndian.Encode(|m|, 4)
  }

  lemma MessageAccepted(h: seq<Byte>, d: seq<Byte>)
    requires |h| == HEADER
    ensures Accepted(Message(h, d))
  {
    assert Message(h, d)[..4] == LittleEndian.Encode(HEADER + |d|, 4);
  }

  /** What the kernel accepts can be taken apart again. */
  lemma MessageLength(h: seq<Byte>, d: seq<Byte>)
    requires |h| == HEADER && HEADER + |d| < 0x1_0000_0000
    ensures LittleEndian.Decode(Message(h, d)[..4]) == |Message(h, d)|
    ensures Message(h, d)[4..HEADER] == h[4..] && Message(h, d)[HEADER..] == d
  {
    var n := HEADER + |d|;
    assert LittleEndian.Pow256(4) == 0x1_0000_0000;
    LittleEndian.DecodeEncode(n, 4);
    assert Message(h, d)[..4] == LittleEndian.Encode(n, 4);
  }

  /** What a thread needs to answer requests. */
  class Session {
    const k: Machine
    /** The thread's pipe, if it has one. */
    var pipe: Option<nat>
    /** How many bytes at the head of the pipe are pages of the reply header: vmsplice links
        them, so that later changes of the header show. */
    var linked: nat
    var broken: bool             // broken_splice_nonblock
    /** The messages the kernel has accepted. */
    var sent: seq<seq<Byte>>
    var protoMinor: nat          // both as INIT has left them
    var wantSpliceWrite: bool
    const pageSize: nat

    constructor (m: Machine, minor: nat, splice: bool, page: nat)
      ensures k == m && pipe == None && linked == 0 && sent == []
    {
      k, pipe, linked, broken, sent := m, None, 0, false, [];
      protoMinor, wantSpliceWrite, pageSize := minor, splice, page;
    }

    /** Nothing is left in the pipe for the next request. */
    predicate Clean()
      reads this, k
    {
      linked == 0 && (pipe.Some? ==> Data(k.st, Fifo(pipe.value)) == [])
    }

    /** What a reader of the pipe gets, header h being linked to its head. */
    function PipeView(h: Buf): seq<Byte>
      reads this, k
      requires pipe.Some? && linked <= HEADER <= |Data(k.st, h.Key())| && linked <= |Data(k.st, Fifo(pipe.value))|
    {
      Data(k.st, h.Key())[HEADER - linked..HEADER] + Data(k.st, Fifo(pipe.value))[linked..]
    }

    /** The reply header is a block of its own; the data is elsewhere, and not in the pipe. */
    ghost predicate Ready(v: BufVec, h: Buf)
      reads this, k, v
    {
      && v.Valid() && AllAllocated(v.bufs, k.st)
      && h.Mem? && h.size == HEADER && h.pos == 0 && h.Key() in k.st && |k.st[h.Key()]| >= HEADER
      && (forall b :: b in v.bufs ==> b.Key() in k.st && b.Key() != h.Key())
      && (pipe.Some? ==> forall b :: b in v.bufs ==> b.Key() != Fifo(pipe.value))
    }

    function HeaderBytes(h: Buf): (r: seq<Byte>)
      reads k
      requires |Data(k.st, h.Key())| >= HEADER
      ensures |r| == HEADER
    {
      Data(k.st, h.Key())[..HEADER]
    }

    /** out->len = n. */
    method SetLen(h: Buf, n: nat)
      requires h.Mem? && h.pos == 0 && |Data(k.st, h.Key())| >= HEADER
      modifies k
      ensures k.st == old(k.st)[h.Key() := Data(k.st, h.Key())]
      ensures |Data(k.st, h.Key())| == |Data(old(k.st), h.Key())|
      ensures HeaderBytes(h) == WithLen(old(HeaderBytes(h)), n)
    {
      var d := Data(k.st, h.Key());
      k.st := Put(h, 0, LittleEndian.Encode(n, 4), k.st);
      assert Overlay(d, 0, LittleEndian.Encode(n, 4)) == LittleEndian.Encode(n, 4) + d[4..];
    }

    /** The kernel is handed one whole message. */
    method Deliver(m: seq<Byte>) returns (res: int)
      modifies this`sent
      ensures res == 0 ==> Accepted(m) && sent == old(sent) + [m]
      ensures res != 0 ==> res < 0 && sent == old(sent)
      ensures k.reliable && Accepted(m) ==> res == 0
    {
      res :| res <= 0 && (k.reliable ==> res == 0);
      if m[..Min(4, |m|)] != LittleEndian.Encode(|m|, 4) || |m| < HEADER { res := -EIO; }
      if res == 0 { sent := sent + [m]; }
    }

    /** The outcome of sending a reply: on success, and only then, the kernel has got it. */
    twostate predicate Replied(res: int, h: seq<Byte>, d: seq<Byte>)
      requires |h| == HEADER
      reads this
    {
      && (res == 0 ==> sent == old(sent) + [Message(h, d)])
      && (res != 0 ==> sent == old(sent))
    }

    /** fuse_send_msg with the header h and one more piece of data. */
    method SendMsg(h: Buf, d: seq<Byte>) returns (res: int)
      requires h.Mem? && h.pos == 0 && |Data(k.st, h.Key())| >= HEADER
      modifies this`sent, k
      ensures k.st == old(k.st)[h.Key() := Data(k.st, h.Key())]
      ensures Replied(res, old(HeaderBytes(h)), d) && res <= 0
      ensures k.reliable ==> res == 0
    {
      SetLen(h, HEADER + |d|);
      MessageAccepted(old(HeaderBytes(h)), d);
      res := Deliver(HeaderBytes(h) + d);
    }

    /** fuse_ll_get_pipe; creating a pipe can fail. */
    method GetPipe() returns (ok: bool)
      requires Clean()
      modifies this`pipe
      ensures Clean() && (ok <==> pipe.Some?)
      ensures pipe == old(pipe) || (old(pipe) == None && pipe.Some? && Fifo(pipe.value) !in k.st)
    {
      if pipe.None? {
        var make: bool := *;
        if make {
          ghost var bound := FifosBounded(k.st.Keys);
          assert Fifo(bound) !in k.st;
          var f: nat :| Fifo(f) !in k.st;
          pipe := Some(f);
        }
      }
      ok := pipe.Some?;
    }

    /** fuse_ll_clear_pipe: both ends are closed and the thread's pipe forgotten. */
    method ClearPipe()
      modifies this`pipe, this`linked, k
      ensures pipe == None && linked == 0
      ensures k.st == if old(pipe).Some? then old(k.st) - {Fifo(old(pipe).value)} else old(k.st)
    {
      if pipe.Some? { k.st := k.st - {Fifo(pipe.value)}; }
      pipe, linked := None, 0;
    }

    /** vmsplice of the header into an empty pipe; res bytes are linked. */
    method Vmsplice(h: Buf) returns (res: int)
      requires Clean() && pipe.Some? && h.Mem? && |Data(k.st, h.Key())| >= HEADER
      modifies this`linked, k
      ensures -1 <= res <= HEADER
      ensures res <= 0 ==> k.st == old(k.st) && Clean()
      ensures 0 < res ==> linked == res
      ensures 0 < res ==> k.st == old(k.st)[Fifo(pipe.value) := Data(old(k.st), h.Key())[..res]]
      ensures k.reliable ==> res == HEADER
    {
      res :| -1 <= res <= HEADER && (k.reliable ==> res == HEADER);
      if 0 < res {
        linked := res;
        k.st := k.st[Fifo(pipe.value) := Data(k.st, h.Key())[..res]];
      }
    }

    /** read_back: exactly n bytes out of the pipe, or an error. */
    method ReadBack(h: Buf, n: nat) returns (res: int, d: seq<Byte>)
      requires pipe.Some? && h.Mem? && linked <= HEADER <= |Data(k.st, h.Key())|
      requires linked <= |Data(k.st, Fifo(pipe.value))| && linked <= n <= |Data(k.st, Fifo(pipe.value))|
      modifies this`linked, k
      ensures res == 0 || res == -EIO
      ensures res == 0 ==> d == old(PipeView(h))[..n] && linked == 0
      ensures res == 0 ==> k.st == old(k.st)[Fifo(pipe.value) := Data(old(k.st), Fifo(pipe.value))[n..]]
      ensures res != 0 ==> k.st == old(k.st)[Fifo(pipe.value) := Data(k.st, Fifo(pipe.value))]
      ensures k.reliable ==> res == 0
    {
      var r: nat :| r <= n && (k.reliable ==> r == n);
      d, linked := PipeView(h)[..r], if linked < r then 0 else linked - r;
      k.st := k.st[Fifo(pipe.value) := Data(k.st, Fifo(pipe.value))[r..]];
      res := if r == n then 0 else -EIO;
    }

    /** The last splice, from the pipe to the device: the first n bytes as one message.  When it
        fails there is no telling what is left in the pipe. */
    method SpliceToDevice(h: Buf, n: nat) returns (res: int)
      requires pipe.Some? && h.Mem? && linked <= HEADER <= |Data(k.st, h.Key())|
      requires linked <= n <= |Data(k.st, Fifo(pipe.value))|
      modifies this`linked, this`sent, k
      ensures res == 0 ==> sent == old(sent) + [old(PipeView(h))[..n]] && linked == 0
      ensures res == 0 ==> k.st == old(k.st)[Fifo(pipe.value) := Data(old(k.st), Fifo(pipe.value))[n..]]
      ensures res != 0 ==> sent == old(sent) && k.st == old(k.st)[Fifo(pipe.value) := Data(k.st, Fifo(pipe.value))]
      ensures k.reliable && old(Accepted(PipeView(h)[..n])) ==> res == 0
    {
      res := Deliver(PipeView(h)[..n]);
      var f := Fifo(pipe.value);
      if res == 0 {
        linked, k.st := 0, k.st[f := Data(k.st, f)[n..]];
      } else {
        var r: nat :| r <= |Data(k.st, f)|;
        k.st := k.st[f := Data(k.st, f)[r..]];
      }
    }

    /** fuse_send_data_iov_fallback: the data goes through memory. */
    method Fallback(v: BufVec, h: Buf, len: nat) returns (res: int, ghost d: seq<Byte>)
      requires Ready(v, h) && len == Size(List(v.bufs))
      modifies this`sent, k, v`idx, v`off
      ensures Replied(res, old(HeaderBytes(h)), d)
      ensures d <= old(Flat(v.View(), k.st))
      ensures k.reliable ==> res == 0 && |d| == Min(len, |old(Flat(v.View(), k.st))|)
      ensures pipe.Some? ==> Data(k.st, Fifo(pipe.value)) == Data(old(k.st), Fifo(pipe.value))
    {
      hide Put, Peek, Consume, Flat, Drain, Scatter, Skip, AllApart, Size, Avoids;
      ghost var f := Flat(v.View(), k.st);
      if |v.bufs| == 1 && v.idx == 0 && v.off == 0 && v.bufs[0].Mem? {
        NewView(v, v.bufs[0]);
        assert v.bufs[0] in v.bufs;
        OneBlock(v.bufs[0], k.st);
        d := f;
        res := SendMsg(h, Peek(v.bufs[0], 0, len, k.st));
        return;
      }
      var ok: bool :| k.reliable ==> ok;
      if !ok { return ENOMEM, []; }
      var data;
      res, data := Gather(k, v, len, 0);
      if res < 0 { return -res, []; }
      d := data;
      assert Data(k.st, h.Key()) == Data(old(k.st), h.Key());
      res := SendMsg(h, data);
    }

    /** The pipe holds the linked header and then the data d. */
    predicate Holds(h: Buf, d: seq<Byte>)
      reads this, k
    {
      && pipe.Some? && h.Mem? && HEADER <= |Data(k.st, h.Key())|
      && linked == HEADER <= |Data(k.st, Fifo(pipe.value))|
      && Data(k.st, Fifo(pipe.value))[HEADER..] == d
    }

    /** out->len is brought up to date and the pipe is emptied into the device. */
    method SendPipe(h: Buf, d: seq<Byte>) returns (res: int)
      requires Holds(h, d) && h.pos == 0
      modifies this`pipe, this`linked, this`sent, k
      ensures Clean() && Replied(res, old(HeaderBytes(h)), d)
      ensures k.reliable ==> res == 0
    {
      SetLen(h, HEADER + |d|);
      ghost var m := Message(old(HeaderBytes(h)), d);
      MessageAccepted(old(HeaderBytes(h)), d);
      assert PipeView(h) == m;
      assert m[..HEADER + |d|] == m;
      res := SpliceToDevice(h, HEADER + |d|);
      if res != 0 { ClearPipe(); }
    }

    /** There is more than the d that is in the pipe: all of it is sent from memory. */
    method SendFromMemory(h: Buf, d: seq<Byte>, extra: seq<Byte>) returns (res: int)
      requires Holds(h, d) && h.pos == 0
      modifies this`pipe, this`linked, this`sent, k
      ensures Clean() && Replied(res, old(HeaderBytes(h)), d + extra)
      ensures k.reliable ==> res == 0
    {
      hide LittleEndian.Encode;
      var ok: bool :| k.reliable ==> ok;
      if !ok { ClearPipe(); return ENOMEM; }
      var part;
      res, part := ReadBack(h, HEADER);
      if res != 0 { ClearPipe(); return; }
      assert Data(k.st, Fifo(pipe.value)) == d;
      res, part := ReadBack(h, |d|);
      if res != 0 { ClearPipe(); return; }
      assert part == d;
      res := SendMsg(h, part + extra);
    }

    /** The pipe took d, a part of the stream only; see whether there is more to be had. */
    method SendShort(v: BufVec, h: Buf, len: nat, d: seq<Byte>) returns (res: int, ghost all: seq<Byte>)
      requires Ready(v, h) && Holds(h, d) && |d| <= len
      modifies this`pipe, this`linked, this`sent, k, v`idx, v`off
      ensures Clean() && Replied(res, old(HeaderBytes(h)), all)
      ensures d <= all && all <= d + old(Flat(v.View(), k.st))
      ensures k.reliable ==> res == 0 && |all| == Min(len, |d| + |old(Flat(v.View(), k.st))|)
    {
      hide Flat, Size, AllAllocated, LittleEndian.Encode;
      all := d;
      var ok: bool :| k.reliable ==> ok;
      if !ok { ClearPipe(); return ENOMEM, d; }
      var extra;
      ghost var st0 := k.st;
      res, extra := Gather(k, v, len, |d|);
      assert Data(k.st, h.Key()) == Data(st0, h.Key());
      assert Data(k.st, Fifo(pipe.value)) == Data(st0, Fifo(pipe.value));
      if res > 0 {
        all := d + extra;
        res := SendFromMemory(h, d, extra);
        return;
      }
      res := SendPipe(h, d);
    }

    /** The header is in the pipe; the data follows it there as far as it can be spliced. */
    method SendSpliced(v: BufVec, h: Buf, len: nat) returns (res: int, ghost d: seq<Byte>)
      requires Ready(v, h) && pipe.Some? && len == Size(List(v.bufs))
      requires linked == HEADER && Data(k.st, Fifo(pipe.value)) == HeaderBytes(h)
      modifies this`pipe, this`linked, this`broken, this`sent, k, v`idx, v`off
      ensures Clean() && Replied(res, old(HeaderBytes(h)), d)
      ensures d <= old(Flat(v.View(), k.st))
      ensures k.reliable ==> res == 0 && |d| == Min(len, |old(Flat(v.View(), k.st))|)
    {
      hide Flat, Size, List, AllAllocated, LittleEndian.Encode, WithLen, Message;
      ghost var st0, f, n: nat := k.st, Flat(v.View(), k.st), 0;
      res, n := Pour(k, v, len, pipe.value);
      assert Data(k.st, h.Key()) == Data(st0, h.Key());
      assert f == f[..n] + f[n..];
      if res < 0 {
        if res == -EAGAIN || res == -EINVAL {
          if res == -EAGAIN { broken := true; }
          ghost var st1 := k.st;
          ClearPipe();
          ViewAgree(v, st1, k.st);
          DroppedFifo(v.bufs, st1, k.st, old(pipe).value);
          res, d := Fallback(v, h, len);
          return;
        }
        ClearPipe();
        return -res, [];
      }
      var got := Data(k.st, Fifo(pipe.value))[HEADER..];
      assert got == f[..n];
      if res != 0 && res < len {
        res, d := SendShort(v, h, len, got);
      } else {
        d := got;
        res := SendPipe(h, got);
      }
    }

    /** There is a pipe, and it is empty: the header is linked into it, or else memory is used. */
    method SendLinked(v: BufVec, h: Buf, len: nat) returns (res: int, ghost d: seq<Byte>)
      requires Clean() && Ready(v, h) && pipe.Some? && len == Size(List(v.bufs))
      modifies this`pipe, this`linked, this`broken, this`sent, k, v`idx, v`off
      ensures Clean() && Replied(res, old(HeaderBytes(h)), d)
      ensures d <= old(Flat(v.View(), k.st))
      ensures k.reliable ==> res == 0 && |d| == Min(len, |old(Flat(v.View(), k.st))|)
    {
      hide Flat, Size, List, LittleEndian.Encode, WithLen, Message;
      ghost var st0, h0 := k.st, HeaderBytes(h);
      SetLen(h, HEADER + len);
      Relabelled(h0, HEADER + len);
      var ok: bool :| true;   // is the pipe large enough, or could it be grown?
      if ok { res := Vmsplice(h); }
      ViewAgree(v, st0, k.st);
      if !ok || res == -1 {
        res, d := Fallback(v, h, len);
        return;
      }
      if res != HEADER {
        ClearPipe();
        return -EIO, [];
      }
      res, d := SendSpliced(v, h, len);
    }

    /** fuse_send_data_iov.  On every path the kernel gets either nothing or the header followed
        by a prefix d of the stream, with the length that belongs to d; and the pipe is clean. */
    method SendDataIov(v: BufVec, h: Buf, noSplice: bool) returns (res: int, ghost d: seq<Byte>)
      requires Clean() && Ready(v, h)
      modifies this`pipe, this`linked, this`broken, this`sent, k, v`idx, v`off
      ensures Clean() && Replied(res, old(HeaderBytes(h)), d)
      ensures d <= old(Flat(v.View(), k.st))
      ensures k.reliable ==> res == 0 && |d| == Min(Size(List(v.bufs)), |old(Flat(v.View(), k.st))|)
    {
      hide Flat, Size, List, LittleEndian.Encode, WithLen, Message;
      var len := BufSize(v);
      var left := RemainingSize(v);
      if broken || noSplice || left < 2 * pageSize || protoMinor < 14 || !wantSpliceWrite {
        res, d := Fallback(v, h, len);
        return;
      }
      var ok := GetPipe();
      if !ok {
        res, d := Fallback(v, h, len);
        return;
      }
      res, d := SendLinked(v, h, len);
    }
  }

  lemma DroppedFifo(bs: seq<Buf>, st: Store, st': Store, f: nat)
    requires AllAllocated(bs, st) && st' == st - {Fifo(f)}
    ensures AllAllocated(bs, st')
  {
  }

  /** fuse_buf_size counts whole buffers; this counts from the cursor on. */
  method RemainingSize(v: BufVec) returns (n: nat)
    requires v.Valid()
    ensures n == Size(v.View())
  {
    n := 0;
    var i := v.idx;
    while i < |v.bufs|
      invariant v.idx <= i <= |v.bufs|
      invariant i == v.idx ==> n == 0
      invariant v.idx < i ==> n + Size(List(v.bufs[i..])) == Size(v.View())
    {
      assert i + 1 < |v.bufs| ==> v.bufs[i + 1..][1..] == v.bufs[i + 2..];
      assert v.bufs[i..][1..] == v.bufs[i + 1..];
      n := n + v.bufs[i].size;
      if i == v.idx { n := n - v.off; }
      i := i + 1;
    }
  }

  /** Only the length field of the old header is lost. */
  lemma Relabelled(h: seq<Byte>, n: nat)
    requires |h| == HEADER
    ensures forall d :: Message(WithLen(h, n), d) == Message(h, d)
  {
    assert WithLen(h, n)[4..] == h[4..];
  }

  /** Reading the buffers takes nothing out of o. */
  ghost predicate NotDrained(o: Obj, bs: seq<Buf>) {
    o.Fifo? ==> forall b :: b in bs ==> b.Key() != o
  }

  /** Copies what remains of v to a new block of len bytes, from offset off on. */
  method Gather(k: Machine, v: BufVec, len: nat, off: nat) returns (res: int, data: seq<Byte>)
    requires v.Valid() && AllAllocated(v.bufs, k.st) && (forall b :: b in v.bufs ==> b.Key() in k.st) && off <= len
    modifies k, v`idx, v`off
    ensures v.Valid()
    ensures 0 <= res ==> res == |data| <= len - off && data <= old(Flat(v.View(), k.st))
    ensures k.reliable ==> res == Min(len - off, |old(Flat(v.View(), k.st))|)
    ensures forall o: Obj :: NotDrained(o, v.bufs) ==> Data(k.st, o) == Data(old(k.st), o)
  {
    hide Put, Peek, Consume, Flat, Drain, Scatter, Skip, AllAllocated, AllApart, Avoids;
    hide BufVec.View, LostFrom, Size, Slice, Overlay, List;
    ghost var s0, st0 := v.View(), k.st;
    ghost var f := Flat(s0, st0);
    var a := k.Malloc(len);
    var memv := new BufVec(Mem(len, a, 0));
    memv.off := off;
    ghost var b, m, st1 := Mem(len, a, 0), Mem(len - off, a, off), k.st;
    OffsetView(memv, b, off);
    ViewAgree(v, st0, st1);
    MemReady(v.bufs, b, st0, st1);
    forall o: Obj | o.Fifo? && NotDrained(o, v.bufs) ensures Avoids(s0, o) { ViewAvoids(v, o); }
    ghost var lost;
    res, lost := Copy(k, memv, v, CopyFlags(false, false));
    ghost var n := if res < 0 then 0 else res;
    NothingLost(lost, v.bufs, b, CopyFlags(false, false));
    CopiedToMem(s0, m, f, n, st1);
    data := [];
    if 0 < res { data := Data(k.st, Block(a))[off..off + res]; }
    ghost var st2 := k.st;
    k.Free(a);
    forall o: Obj | NotDrained(o, v.bufs) ensures Data(k.st, o) == Data(st0, o) {
      if o != Block(a) { CopyKeeps(s0, m, f[..n], n, o, st1); }
    }
  }

  /** Copies what remains of v to the pipe f, splicing where it can. */
  method Pour(k: Machine, v: BufVec, len: nat, f: nat) returns (res: int, ghost n: nat)
    requires v.Valid() && AllAllocated(v.bufs, k.st) && (forall b :: b in v.bufs ==> b.Key() in k.st)
    requires forall b :: b in v.bufs ==> b.Key() != Fifo(f)
    modifies k, v`idx, v`off
    ensures v.Valid() && AllAllocated(v.bufs, k.st) && (forall b :: b in v.bufs ==> b.Key() in k.st)
    ensures n == (if res < 0 then 0 else res) <= |old(Flat(v.View(), k.st))| && n <= len
    ensures Data(k.st, Fifo(f)) == Data(old(k.st), Fifo(f)) + old(Flat(v.View(), k.st))[..n]
    ensures Flat(v.View(), k.st) == old(Flat(v.View(), k.st))[n..]
    ensures k.reliable ==> res == Min(len, |old(Flat(v.View(), k.st))|)
    ensures forall o: Obj :: NotDrained(o, v.bufs) && o != Fifo(f) ==> Data(k.st, o) == Data(old(k.st), o)
  {
    hide Put, Peek, Consume, Flat, Drain, Scatter, Skip, Avoids, Apart, Size, Grown, Agree;
    ghost var s0, st0 := v.View(), k.st;
    ghost var fl := Flat(s0, st0);
    var pipev := new BufVec(Pipe(len, f, false));
    ghost var p := Pipe(len, f, false);
    NewView(pipev, p);
    forall o: Obj | o.Fifo? && NotDrained(o, v.bufs) ensures Avoids(s0, o) { ViewAvoids(v, o); }
    ghost var lost;
    res, lost := Copy(k, pipev, v, CopyFlags(false, true));
    n := if res < 0 then 0 else res;
    PouredToPipe(s0, p, fl, n, st0);
    DrainGrows(s0, n, st0);
    ScatterGrows(Cons(p, Nil), fl[..n], Drain(s0, n, st0));
    StillReady(v.bufs, st0, Drain(s0, n, st0), k.st);
    forall o: Obj | NotDrained(o, v.bufs) && o != Fifo(f) ensures Data(k.st, o) == Data(st0, o) {
      CopyKeeps(s0, p, fl[..n], n, o, st0);
    }
    RestOfStream(s0, v.View(), p, fl, n, st0);
  }

  lemma StillReady(bs: seq<Buf>, st: Store, st1: Store, st2: Store)
    requires AllAllocated(bs, st) && (forall b :: b in bs ==> b.Key() in st) && Grown(st, st1) && Grown(st1, st2)
    ensures AllAllocated(bs, st2) && forall b :: b in bs ==> b.Key() in st2
  {
  }

  lemma PouredToPipe(s: Bufs, p: Buf, f: seq<Byte>, n: nat, st: Store)
    requires p.Pipe? && Avoids(s, p.Key()) && n <= p.size && n <= |f|
    ensures Data(Scatter(Cons(p, Nil), f[..n], Drain(s, n, st)), p.Key()) == Data(st, p.Key()) + f[..n]
  {
    DrainKeeps(s, n, st, p.Key());
  }

  /** After n bytes have gone to p, the rest of the stream is what the cursor still has. */
  lemma RestOfStream(s0: Bufs, s: Bufs, p: Buf, f: seq<Byte>, n: nat, st: Store)
    requires f == Flat(s0, st) && n <= |f| && n <= p.size && Avoids(s0, p.Key()) && Skip(s, 0) == Skip(s0, n)
    ensures Flat(s, Scatter(Cons(p, Nil), f[..n], Drain(s0, n, st))) == f[n..]
  {
    hide Put, Peek, Consume, Data, Flat, Drain, Skip, Avoids;
    var d := Drain(s0, n, st);
    var st' := Put(p, 0, f[..n], d);
    assert f[n..][0..] == f[n..];
    FlatSkip(s0, n, st);
    AvoidsSkip(s0, n, p.Key());
    PutKeepsFlat(Skip(s0, n), p, f[..n], d);
    FlatSkip(s, 0, st');
    DrainNone(s, st');
  }

  lemma OffsetView(v: BufVec, b: Buf, off: nat)
    requires v.bufs == [b] && v.idx == 0 && v.off == off <= b.size
    ensures v.Valid() && v.View() == Cons(b.Trim(off), Nil) && Size(v.View()) == b.size - off
  {
  }

  lemma OneBlock(b: Buf, st: Store)
    requires b.Mem? && b.Allocated(st)
    ensures Flat(Cons(b, Nil), st) == Peek(b, 0, b.size, st) && |Peek(b, 0, b.size, st)| == b.size == Size(Cons(b, Nil))
  {
  }

  lemma MemReady(bs: seq<Buf>, b: Buf, st: Store, st': Store)
    requires AllAllocated(bs, st) && (forall x :: x in bs ==> x.Key() in st)
    requires b.Mem? && b.pos == 0 && b.Key() !in st && st' == st[b.Key() := seq(b.size, _ => 0)]
    ensures AllAllocated(bs, st') && AllAllocated([b], st') && AllApart(bs, [b])
  {
  }

  lemma NothingLost(lost: nat, bs: seq<Buf>, b: Buf, flags: CopyFlags)
    requires b.Mem? && LostFrom(lost, bs, [b], flags)
    ensures lost == 0
  {
  }

  /** What was copied to a block of memory is there. */
  lemma CopiedToMem(s: Bufs, b: Buf, f: seq<Byte>, n: nat, st: Store)
    requires b.Mem? && n <= b.size && n <= |f|
    ensures var d := Data(Scatter(Cons(b, Nil), f[..n], Drain(s, n, st)), b.Key());
      n > 0 ==> b.pos + n <= |d| && d[b.pos..b.pos + n] == f[..n]
  {
    PeekPut(b, f[..n], Drain(s, n, st));
  }

  /** Nothing else was touched. */
  lemma CopyKeeps(s: Bufs, b: Buf, d: seq<Byte>, n: nat, o: Obj, st: Store)
    requires b.Key() != o && |d| <= b.size && (Avoids(s, o) || !o.Fifo?)
    ensures Data(Scatter(Cons(b, Nil), d, Drain(s, n, st)), o) == Data(st, o)
  {
    DrainKeeps(s, n, st, o);
  }

  lemma FifosBounded(os: set<Obj>) returns (n: nat)
    ensures forall o :: o in os && o.Fifo? ==> o.fd < n
  {
    if os == {} { n := 0; }
    else {
      var o :| o in os;
      n := FifosBounded(os - {o});
      if o.Fifo? && n <= o.fd { n := o.fd + 1; }
    }
  }
}
