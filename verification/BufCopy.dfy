/** lib/buffer.c: copying between buffer vectors. */
module BufCopy {
  import opened Storage
  import opened Vectors

  /** Room of the intermediate buffer of fuse_buf_fd_to_fd. */
  const TMP_SIZE := 131072

  const EINVAL := 22

  datatype CopyFlags = CopyFlags(noSplice: bool, forceSplice: bool)

  /** The outcomes of write(2): an error, or the first res bytes of d are written. */
  ghost predicate MayWrite(b: Buf, off: nat, d: seq<Byte>, reliable: bool, st: Store, res: int, st': Store) {
    && (res <= 0 ==> st' == st)
    && (0 <= res ==> res <= |d| && st' == Put(b, off, d[..res], st))
    && (reliable ==> res == |d|)
  }

  /** The outcomes of read(2): an error, or the first res bytes of those there are. */
  ghost predicate MayRead(b: Buf, off: nat, n: nat, reliable: bool, st: Store, res: int, d: seq<Byte>, st': Store) {
    && (res <= 0 ==> st' == st)
    && (0 <= res ==> res <= |Peek(b, off, n, st)| && d == Peek(b, off, n, st)[..res] && st' == Consume(b, res, st))
    && (reliable ==> res == |Peek(b, off, n, st)|)
  }

  /** The process: its storage, and the system calls on it.  A call may fail, or come back
      short, unless the machine is reliable. */
  class Machine {
    var st: Store
    const reliable: bool

    constructor (s: Store, r: bool)
      ensures st == s && reliable == r
    {
      st, reliable := s, r;
    }

    /** write(2), or pwrite(2) at the buffer's position. */
    method Write(b: Buf, off: nat, d: seq<Byte>) returns (res: int)
      requires !b.Mem?
      modifies this
      ensures MayWrite(b, off, d, reliable, old(st), res, st)
    {
      res :| res <= |d| && (reliable ==> res == |d|);
      if 0 <= res { st := Put(b, off, d[..res], st); }
    }

    /** read(2), or pread(2) at the buffer's position. */
    method Read(b: Buf, off: nat, n: nat) returns (res: int, d: seq<Byte>)
      requires !b.Mem?
      modifies this
      ensures MayRead(b, off, n, reliable, old(st), res, d, st)
    {
      var p := Peek(b, off, n, st);
      res :| res <= |p| && (reliable ==> res == |p|);
      d := [];
      if 0 <= res { d, st := p[..res], Consume(b, res, st); }
    }

    /** splice(2) from one descriptor to another. */
    method Splice(dst: Buf, dstOff: nat, src: Buf, srcOff: nat, n: nat) returns (res: int)
      requires !dst.Mem? && !src.Mem? && dst.Key() != src.Key()
      modifies this
      ensures res <= 0 ==> st == old(st)
      ensures 0 <= res ==> res <= |Peek(src, srcOff, n, old(st))|
      ensures 0 <= res ==>
        st == Consume(src, res, Put(dst, dstOff, Peek(src, srcOff, n, old(st))[..res], old(st)))
      ensures reliable ==> res == |Peek(src, srcOff, n, old(st))|
    {
      var p := Peek(src, srcOff, n, st);
      res :| res <= |p| && (reliable ==> res == |p|);
      if 0 <= res { st := Consume(src, res, Put(dst, dstOff, p[..res], st)); }
    }

    method Malloc(n: nat) returns (a: nat)
      modifies this
      ensures Block(a) !in old(st) && st == old(st)[Block(a) := seq(n, _ => 0)]
    {
      ghost var bound := BlocksBounded(st.Keys);
      assert Block(bound) !in st;
      a :| Block(a) !in st;
      st := st[Block(a) := seq(n, _ => 0)];
    }

    method Free(a: nat)
      modifies this
      ensures st == old(st) - {Block(a)}
    {
      st := st - {Block(a)};
    }

    method Memcpy(dst: Buf, dstOff: nat, src: Buf, srcOff: nat, n: nat)
      requires dst.Mem? && src.Mem? && Fits(src, srcOff, n, st) && Fits(dst, dstOff, n, st)
      requires dst.addr != src.addr || dst.pos + dstOff + n <= src.pos + srcOff ||
               src.pos + srcOff + n <= dst.pos + dstOff
      modifies this
      ensures st == Put(dst, dstOff, Peek(src, srcOff, n, old(st)), old(st))
    {
      st := Put(dst, dstOff, Peek(src, srcOff, n, st), st);
    }

    method Memmove(dst: Buf, dstOff: nat, src: Buf, srcOff: nat, n: nat)
      requires dst.Mem? && src.Mem? && Fits(src, srcOff, n, st) && Fits(dst, dstOff, n, st)
      modifies this
      ensures st == Put(dst, dstOff, Peek(src, srcOff, n, old(st)), old(st))
    {
      st := Put(dst, dstOff, Peek(src, srcOff, n, st), st);
    }
  }

  lemma BlocksBounded(os: set<Obj>) returns (n: nat)
    ensures forall o :: o in os && o.Block? ==> o.addr < n
  {
    if os == {} { n := 0; }
    else {
      var o :| o in os;
      n := BlocksBounded(os - {o});
      if o.Block? && n <= o.addr { n := o.addr + 1; }
    }
  }

  /** The store after c of the bytes p of src have been copied to dst. */
  function Moved(dst: Buf, dstOff: nat, src: Buf, p: seq<Byte>, c: nat, st: Store): Store
    requires c <= |p|
  {
    Consume(src, c, Put(dst, dstOff, p[..c], st))
  }

  lemma MovedNone(dst: Buf, dstOff: nat, src: Buf, p: seq<Byte>, st: Store)
    ensures Moved(dst, dstOff, src, p, 0, st) == st
  {
  }

  /** Reading r more bytes and writing the first w of them. */
  lemma MoveOn(dst: Buf, dstOff: nat, src: Buf, srcOff: nat, n: nat, c: nat, r: nat, w: nat, st: Store)
    requires dst.Key() != src.Key()
    requires w <= r && c + r <= |Peek(src, srcOff, n, st)|
    ensures var p := Peek(src, srcOff, n, st);
      var u := Moved(dst, dstOff, src, p, c, st);
      && Put(dst, dstOff + c, p[c..c + w], Consume(src, r, u)) == Consume(src, c + r, Put(dst, dstOff, p[..c + w], st))
      && Consume(src, r, Put(dst, dstOff + c, p[c..c + w], u)) == Consume(src, c + r, Put(dst, dstOff, p[..c + w], st))
  {
    hide Put, Peek, Consume;
    var p := Peek(src, srcOff, n, st);
    var q := Put(dst, dstOff, p[..c], st);
    PutKeepsData(dst, dstOff, p[..c], src, st);
    PeekLength(src, srcOff, n, st);
    assert Data(q, src.Key()) == Data(st, src.Key());
    ConsumeAdd(src, c, r, q);
    PutConsumeCommute(dst, dstOff + c, p[c..c + w], src, c + r, q);
    PutConsumeCommute(dst, dstOff + c, p[c..c + w], src, r, Consume(src, c, q));
    PutAppend(dst, dstOff, p[..c], p[c..c + w], st);
    assert p[..c] + p[c..c + w] == p[..c + w];
  }

  /** The next bytes of src are those not copied yet. */
  lemma MovedPeek(dst: Buf, dstOff: nat, src: Buf, srcOff: nat, n: nat, c: nat, m: nat, st: Store)
    requires dst.Key() != src.Key()
    requires c <= |Peek(src, srcOff, n, st)| && c + m <= n
    ensures var p := Peek(src, srcOff, n, st);
      Peek(src, srcOff + c, m, Moved(dst, dstOff, src, p, c, st)) == p[c..Min(c + m, |p|)]
  {
    hide Put, Peek, Consume;
    var p := Peek(src, srcOff, n, st);
    var q := Put(dst, dstOff, p[..c], st);
    PutKeepsPeek(dst, dstOff, p[..c], src, srcOff, n, st);
    PeekNext(src, srcOff, n, c, q);
    PeekShorter(src, srcOff + c, m, n - c, Consume(src, c, q));
    assert p[c..][..Min(m, |p| - c)] == p[c..Min(c + m, |p|)];
  }

  lemma PutKeepsData(d: Buf, off: nat, x: seq<Byte>, s: Buf, st: Store)
    requires d.Key() != s.Key()
    ensures Data(Put(d, off, x, st), s.Key()) == Data(st, s.Key())
  {
  }

  /** fuse_buf_write: memory to a descriptor. */
  method BufWrite(k: Machine, dst: Buf, dstOff: nat, src: Buf, srcOff: nat, n: nat) returns (res: int)
    requires !dst.Mem? && src.Mem? && Fits(src, srcOff, n, k.st)
    modifies k
    ensures res < 0 ==> k.st == old(k.st)
    ensures 0 <= res ==> res <= n && k.st == Put(dst, dstOff, Peek(src, srcOff, n, old(k.st))[..res], old(k.st))
    ensures k.reliable ==> res == n
  {
    hide Put, Peek;
    FitsPeek(src, srcOff, n, k.st);
    ghost var p, st0 := Peek(src, srcOff, n, k.st), k.st;
    var copied: nat, len: nat := 0, n;
    res := 0;
    MovedNone(dst, dstOff, src, p, st0);
    while len > 0
      invariant copied + len == n
      invariant k.st == Moved(dst, dstOff, src, p, copied, st0)
      invariant k.reliable && copied > 0 ==> copied == n
      decreases len
    {
      MovedPeek(dst, dstOff, src, srcOff, n, copied, len, st0);
      res := k.Write(dst, dstOff + copied, Peek(src, srcOff + copied, len, k.st));
      if res < 0 {
        if copied == 0 { return; }
        break;
      }
      if res == 0 { break; }
      MoveOn(dst, dstOff, src, srcOff, n, copied, res, res, st0);
      assert p[copied..Min(copied + len, |p|)][..res] == p[copied..copied + res];
      copied, len := copied + res, len - res;
      if !dst.retry { break; }
    }
    res := copied;
  }

  /** fuse_buf_read: a descriptor to memory. */
  method BufRead(k: Machine, dst: Buf, dstOff: nat, src: Buf, srcOff: nat, n: nat) returns (res: int)
    requires dst.Mem? && !src.Mem? && Fits(dst, dstOff, n, k.st)
    modifies k
    ensures res < 0 ==> k.st == old(k.st)
    ensures 0 <= res ==> res <= |Peek(src, srcOff, n, old(k.st))| &&
                         k.st == Moved(dst, dstOff, src, Peek(src, srcOff, n, old(k.st)), res, old(k.st))
    ensures k.reliable ==> res == |Peek(src, srcOff, n, old(k.st))|
  {
    hide Put, Peek, Consume;
    ghost var p, st0 := Peek(src, srcOff, n, k.st), k.st;
    PeekLength(src, srcOff, n, st0);
    var copied: nat, len: nat := 0, n;
    res := 0;
    MovedNone(dst, dstOff, src, p, st0);
    while len > 0
      invariant copied + len == n && copied <= |p|
      invariant k.st == Moved(dst, dstOff, src, p, copied, st0)
      invariant k.reliable && copied > 0 ==> copied == |p|
      decreases len
    {
      MovedPeek(dst, dstOff, src, srcOff, n, copied, len, st0);
      var d;
      res, d := k.Read(src, srcOff + copied, len);
      if res < 0 {
        if copied == 0 { return; }
        break;
      }
      if res == 0 { break; }
      assert d == p[copied..copied + res];
      k.st := Put(dst, dstOff + copied, d, k.st);
      MoveOn(dst, dstOff, src, srcOff, n, copied, res, res, st0);
      copied, len := copied + res, len - res;
      if !src.retry { break; }
    }
    res := copied;
  }

  /** Taking a block out of the store. */
  lemma PutWithout(b: Buf, off: nat, d: seq<Byte>, o: Obj, st: Store)
    ensures b.Key() != o ==> Put(b, off, d, st) - {o} == Put(b, off, d, st - {o})
    ensures b.Key() == o ==> Put(b, off, d, st) - {o} == st - {o}
  {
  }

  lemma ConsumeWithout(b: Buf, n: nat, o: Obj, st: Store)
    requires b.Key() != o
    ensures Consume(b, n, st) - {o} == Consume(b, n, st - {o})
  {
  }

  lemma PeekWithout(b: Buf, off: nat, n: nat, o: Obj, st: Store)
    requires b.Key() != o
    ensures Peek(b, off, n, st - {o}) == Peek(b, off, n, st)
  {
  }

  /** Bytes put into a block of memory are found there. */
  lemma PeekPutMem(b: Buf, d: seq<Byte>, s: Buf, n: nat, st: Store)
    requires b.Mem? && b.Key() != s.Key()
    ensures Peek(b, 0, |d|, Consume(s, n, Put(b, 0, d, st))) == d
  {
  }

  /** A round that reads r and writes w of the next m bytes, when c have been copied. */
  lemma RoundMoves(dst: Buf, dstOff: nat, src: Buf, srcOff: nat, n: nat, c: nat, m: nat, r: nat, w: nat, st: Store)
    requires dst.Key() != src.Key()
    requires c <= |Peek(src, srcOff, n, st)| && c + m <= n
    requires var u := Moved(dst, dstOff, src, Peek(src, srcOff, n, st), c, st);
      w <= r <= |Peek(src, srcOff + c, m, u)|
    ensures var p := Peek(src, srcOff, n, st);
      var u := Moved(dst, dstOff, src, p, c, st);
      var q := Peek(src, srcOff + c, m, u);
      && |q| == Min(m, |p| - c)
      && Put(dst, dstOff + c, q[..w], Consume(src, r, u)) == Consume(src, c + r, Put(dst, dstOff, p[..c + w], st))
      && (!src.Pipe? ==> Put(dst, dstOff + c, q[..w], Consume(src, r, u)) == Moved(dst, dstOff, src, p, c + w, st))
  {
    hide Put, Peek, Consume;
    var p := Peek(src, srcOff, n, st);
    MovedPeek(dst, dstOff, src, srcOff, n, c, m, st);
    assert p[c..Min(c + m, |p|)][..w] == p[c..c + w];
    MoveOn(dst, dstOff, src, srcOff, n, c, r, w, st);
    if !src.Pipe? { ConsumeUnpiped(src, c + r, c + w, Put(dst, dstOff, p[..c + w], st)); }
  }

  /** One round of fuse_buf_fd_to_fd: at most tmp.size bytes through the block tmp. */
  method FdToFdRound(k: Machine, dst: Buf, dstOff: nat, src: Buf, srcOff: nat, n: nat, tmp: Buf)
    returns (r: int, w: int)
    requires !dst.Mem? && !src.Mem? && dst.Key() != src.Key() && tmp.Mem? && tmp.pos == 0 && Fits(tmp, 0, n, k.st)
    modifies k
    ensures |Data(old(k.st), tmp.Key())| <= |Data(k.st, tmp.Key())|
    ensures r <= 0 ==> k.st == old(k.st)
    ensures 0 < r ==> w <= r <= |Peek(src, srcOff, n, old(k.st))|
    ensures 0 < r ==>
      k.st - {tmp.Key()} ==
      Put(dst, dstOff, Peek(src, srcOff, n, old(k.st))[..if w < 0 then 0 else w],
          Consume(src, r, old(k.st) - {tmp.Key()}))
    ensures k.reliable ==> r == |Peek(src, srcOff, n, old(k.st))| && (0 < r ==> w == r)
  {
    hide Put, Peek, Consume;
    ghost var o, st0 := tmp.Key(), k.st;
    ghost var p := Peek(src, srcOff, n, k.st);
    w := 0;
    r := BufRead(k, tmp, 0, src, srcOff, n);
    if r <= 0 {
      if r == 0 { MovedNone(tmp, 0, src, p, st0); }
      return;
    }
    PeekLength(src, srcOff, n, st0);
    PutWithout(tmp, 0, p[..r], o, st0);
    ConsumeWithout(src, r, o, Put(tmp, 0, p[..r], st0));
    PeekPutMem(tmp, p[..r], src, r, st0);
    PutGrows(tmp, 0, p[..r], src, r, st0);
    assert |Data(st0, Block(tmp.addr))| <= |Data(k.st, Block(tmp.addr))|;
    ghost var st1 := k.st;
    w := BufWrite(k, dst, dstOff, tmp, 0, r);
    PutNothing(dst, dstOff, st1 - {o});
    if 0 <= w {
      assert p[..r][..w] == p[..w];
      PutWithout(dst, dstOff, p[..w], o, st1);
      PutKeepsData(dst, dstOff, p[..w], tmp, st1);
    }
  }

  lemma ConsumeUnpiped(b: Buf, m: nat, n: nat, st: Store)
    requires !b.Pipe?
    ensures Consume(b, m, st) == Consume(b, n, st)
  {
  }

  lemma DataOf(st: Store, o: Obj)
    requires o in st
    ensures Data(st, o) == st[o]
  {
  }

  lemma PutNothing(b: Buf, off: nat, st: Store)
    ensures Put(b, off, [], st) == st
  {
  }

  /** fuse_buf_fd_to_fd: one descriptor to another through memory.  Bytes taken from a pipe
      that could not be written are lost. */
  method FdToFd(k: Machine, dst: Buf, dstOff: nat, src: Buf, srcOff: nat, n: nat) returns (res: int, ghost lost: nat)
    requires !dst.Mem? && !src.Mem? && dst.Key() != src.Key()
    modifies k
    ensures CopyPost(dst, dstOff, src, srcOff, n, res, lost, old(k.st), k.st)
    ensures k.reliable ==> res == |Peek(src, srcOff, n, old(k.st))| && lost == 0
  {
    hide Put, Peek, Consume, Data;
    ghost var st0 := k.st;
    ghost var p := Peek(src, srcOff, n, st0);
    PeekLength(src, srcOff, n, st0);
    var a := k.Malloc(TMP_SIZE);
    var tmp := Mem(TMP_SIZE, a, 0);
    ghost var o := tmp.Key();
    DataOf(k.st, o);
    assert k.st - {o} == st0 && |Data(k.st, o)| == TMP_SIZE;
    var copied: nat, len: nat := 0, n;
    res, lost := 0, 0;
    MovedNone(dst, dstOff, src, p, st0);
    while len > 0
      invariant copied + len == n && copied <= |p|
      invariant k.st - {o} == Moved(dst, dstOff, src, p, copied, st0)
      invariant lost == 0 && TMP_SIZE <= |Data(k.st, o)|
      decreases len
    {
      var thisLen := Min(tmp.size, len);
      PeekWithout(src, srcOff + copied, thisLen, o, k.st);
      RoundMoves(dst, dstOff, src, srcOff, n, copied, thisLen, 0, 0, st0);
      var r, w := FdToFdRound(k, dst, dstOff + copied, src, srcOff + copied, thisLen, tmp);
      if r <= 0 {
        if r < 0 && copied == 0 { k.Free(a); return r, 0; }
        break;
      }
      RoundMoves(dst, dstOff, src, srcOff, n, copied, thisLen, r, if w < 0 then 0 else w, st0);
      if w < 0 {
        lost := if src.Pipe? then r else 0;
        if copied == 0 { k.Free(a); return w, lost; }
        break;
      }
      lost := if src.Pipe? then r - w else 0;
      copied := copied + w;
      if w < thisLen { break; }
      len := len - w;
    }
    k.Free(a);
    res := copied;
  }

  /** What every way of copying one chunk leaves behind: a prefix of the source's bytes is at
      the destination; a pipe has lost that prefix and, if lost is not 0, the bytes after it. */
  ghost predicate CopyPost(dst: Buf, dstOff: nat, src: Buf, srcOff: nat, n: nat, res: int, lost: nat, st: Store,
                           st': Store) {
    var p := Peek(src, srcOff, n, st);
    var c := if res < 0 then 0 else res;
    && c + lost <= |p|
    && (lost > 0 ==> src.Pipe? && !dst.Mem? && c < n && lost <= TMP_SIZE)
    && st' == Consume(src, c + lost, Put(dst, dstOff, p[..c], st))
  }

  lemma CopyPostExact(dst: Buf, dstOff: nat, src: Buf, srcOff: nat, n: nat, c: nat, st: Store)
    requires c <= |Peek(src, srcOff, n, st)|
    ensures CopyPost(dst, dstOff, src, srcOff, n, c, 0, st, Moved(dst, dstOff, src, Peek(src, srcOff, n, st), c, st))
  {
  }

  /** Bytes do get lost: any n bytes of a pipe that are read, when the write after it fails. */
  lemma LosingRound(dst: Buf, dstOff: nat, src: Buf, srcOff: nat, n: nat, errno: int, st: Store)
    returns (d: seq<Byte>, st1: Store, st2: Store)
    requires !dst.Mem? && src.Pipe? && dst.Key() != src.Key()
    requires 0 < n <= |Data(st, src.Key())| && n <= TMP_SIZE && errno > 0
    ensures MayRead(src, srcOff, n, false, st, n, d, st1) && MayWrite(dst, dstOff, d, false, st1, -errno, st2)
    ensures d == Data(st, src.Key())[..n] && Data(st2, src.Key()) == Data(st, src.Key())[n..]
    ensures CopyPost(dst, dstOff, src, srcOff, n, -errno, n, st, st2)
  {
    var p := Peek(src, srcOff, n, st);
    d, st1 := p[..n], Consume(src, n, st);
    st2 := st1;
    PutNothing(dst, dstOff, st);
  }

  /** A failure that has moved nothing. */
  lemma CopyPostFailed(dst: Buf, dstOff: nat, src: Buf, srcOff: nat, n: nat, res: int, st: Store)
    requires res < 0
    ensures CopyPost(dst, dstOff, src, srcOff, n, res, 0, st, st)
  {
  }

  /** fuse_buf_splice: one descriptor to another inside the kernel. */
  method BufSplice(k: Machine, dst: Buf, dstOff: nat, src: Buf, srcOff: nat, n: nat, flags: CopyFlags)
    returns (res: int, ghost lost: nat)
    requires !dst.Mem? && !src.Mem? && dst.Key() != src.Key()
    modifies k
    ensures CopyPost(dst, dstOff, src, srcOff, n, res, lost, old(k.st), k.st)
    ensures k.reliable ==> res == |Peek(src, srcOff, n, old(k.st))| && lost == 0
    ensures flags.forceSplice ==> lost == 0
  {
    hide Put, Peek, Consume, Data;
    ghost var st0 := k.st;
    ghost var p := Peek(src, srcOff, n, st0);
    PeekLength(src, srcOff, n, st0);
    var copied: nat, len: nat := 0, n;
    res, lost := 0, 0;
    MovedNone(dst, dstOff, src, p, st0);
    while len > 0
      invariant copied + len == n && copied <= |p|
      invariant k.st == Moved(dst, dstOff, src, p, copied, st0)
      invariant k.reliable && copied > 0 ==> copied == |p|
      decreases len
    {
      MovedPeek(dst, dstOff, src, srcOff, n, copied, len, st0);
      res := k.Splice(dst, dstOff + copied, src, srcOff + copied, len);
      if res < 0 {
        if copied > 0 { break; }
        if res != -EINVAL || flags.forceSplice {
          CopyPostFailed(dst, dstOff, src, srcOff, n, res, st0);
          return;
        }
        res, lost := FdToFd(k, dst, dstOff, src, srcOff, len);
        return;
      }
      if res == 0 { break; }
      assert p[copied..Min(copied + len, |p|)][..res] == p[copied..copied + res];
      MoveOn(dst, dstOff, src, srcOff, n, copied, res, res, st0);
      copied, len := copied + res, len - res;
      if !src.retry && !dst.retry { break; }
    }
    CopyPostExact(dst, dstOff, src, srcOff, n, copied, st0);
    res := copied;
  }

  lemma PutSame(b: Buf, off: nat, n: nat, st: Store)
    requires b.Mem? && |Peek(b, off, n, st)| == n
    ensures Put(b, off, Peek(b, off, n, st), st) == st
  {
    if n > 0 { OverlaySelf(Data(st, b.Key()), b.pos + off, n); }
  }

  /** Memory to memory. */
  method MemCopy(k: Machine, dst: Buf, dstOff: nat, src: Buf, srcOff: nat, n: nat)
    requires dst.Mem? && src.Mem? && Fits(src, srcOff, n, k.st) && Fits(dst, dstOff, n, k.st)
    modifies k
    ensures k.st == Put(dst, dstOff, Peek(src, srcOff, n, old(k.st)), old(k.st))
  {
    hide Put, Peek;
    FitsPeek(src, srcOff, n, k.st);
    var d, s := dst.pos + dstOff, src.pos + srcOff;
    if dst.addr != src.addr || d != s {
      if dst.addr != src.addr || d + n <= s || s + n <= d {
        k.Memcpy(dst, dstOff, src, srcOff, n);
      } else {
        k.Memmove(dst, dstOff, src, srcOff, n);
      }
    } else {
      PutSame(src, srcOff, n, k.st);
      SamePlace(dst, dstOff, src, srcOff, Peek(src, srcOff, n, k.st), k.st);
    }
  }

  lemma SamePlace(a: Buf, aOff: nat, b: Buf, bOff: nat, d: seq<Byte>, st: Store)
    requires a.Mem? && b.Mem? && a.addr == b.addr && a.pos + aOff == b.pos + bOff
    ensures Put(a, aOff, d, st) == Put(b, bOff, d, st)
  {
  }

  /** fuse_buf_copy_one. */
  method CopyOne(k: Machine, dst: Buf, dstOff: nat, src: Buf, srcOff: nat, n: nat, flags: CopyFlags)
    returns (res: int, ghost lost: nat)
    requires dst.Key() != src.Key() || (dst.Mem? && src.Mem?)
    requires Fits(src, srcOff, n, k.st) && Fits(dst, dstOff, n, k.st)
    modifies k
    ensures CopyPost(dst, dstOff, src, srcOff, n, res, lost, old(k.st), k.st)
    ensures k.reliable || (dst.Mem? && src.Mem?) ==> res == |Peek(src, srcOff, n, old(k.st))| && lost == 0
    ensures dst.Mem? || src.Mem? || (flags.forceSplice && !flags.noSplice) ==> lost == 0
  {
    hide Put, Peek, Data;
    ghost var st0 := k.st;
    ghost var p := Peek(src, srcOff, n, st0);
    lost := 0;
    if src.Mem? { FitsPeek(src, srcOff, n, st0); }
    if src.Mem? && dst.Mem? {
      MemCopy(k, dst, dstOff, src, srcOff, n);
      res := n;
      assert p[..n] == p;
    } else if src.Mem? {
      res := BufWrite(k, dst, dstOff, src, srcOff, n);
      if res < 0 { CopyPostFailed(dst, dstOff, src, srcOff, n, res, st0); }
    } else if dst.Mem? {
      res := BufRead(k, dst, dstOff, src, srcOff, n);
      if res < 0 { CopyPostFailed(dst, dstOff, src, srcOff, n, res, st0); }
      else { CopyPostExact(dst, dstOff, src, srcOff, n, res, st0); }
    } else if flags.noSplice {
      res, lost := FdToFd(k, dst, dstOff, src, srcOff, n);
    } else {
      res, lost := BufSplice(k, dst, dstOff, src, srcOff, n, flags);
    }
  }

  function List(s: seq<Buf>): Bufs {
    if s == [] then Nil else Cons(s[0], List(s[1..]))
  }

  /** struct fuse_bufvec. */
  class BufVec {
    var bufs: seq<Buf>
    var idx: nat
    var off: nat

    constructor (b: Buf)
      ensures bufs == [b] && idx == 0 && off == 0
    {
      bufs, idx, off := [b], 0, 0;
    }

    predicate Valid()
      reads this
    {
      idx <= |bufs| && (idx < |bufs| ==> off <= bufs[idx].size)
    }

    /** The cursor does not stand at the end of a buffer that has been passed. */
    predicate Settled()
      reads this
    {
      idx < |bufs| ==> off == 0 || off < bufs[idx].size
    }

    /** The buffers from the cursor on. */
    function View(): (l: Bufs)
      reads this
      requires Valid()
      ensures l == Nil <==> idx == |bufs|
    {
      if idx == |bufs| then Nil else Cons(bufs[idx].Trim(off), List(bufs[idx + 1..]))
    }

    /** fuse_bufvec_advance. */
    method Advance(len: nat) returns (more: bool)
      requires Valid() && idx < |bufs| && off + len <= bufs[idx].size
      modifies `idx, `off
      ensures Valid()
      ensures Skip(View(), 0) == Skip(old(View()), len)
      ensures Settled()
      ensures more <==> idx < |bufs|
      ensures old(idx) <= idx
      ensures old(bufs[idx].size) == old(off) + len ==> old(idx) < idx
      ensures idx == old(idx) ==> off < bufs[idx].size
    {
      var b := bufs[idx];
      ghost var rest := bufs[idx + 1..];
      assert b.Trim(off).Trim(len) == b.Trim(off + len);
      off := off + len;
      if off == b.size {
        idx := idx + 1;
        if idx == |bufs| { return false; }
        off := 0;
        assert rest[1..] == bufs[idx + 1..];
        assert bufs[idx].Trim(0) == bufs[idx];
      }
      return true;
    }
  }

  /** fuse_buf_size. */
  method BufSize(v: BufVec) returns (size: nat)
    ensures size == Size(List(v.bufs))
  {
    size := 0;
    var i := 0;
    assert v.bufs[0..] == v.bufs;
    while i < |v.bufs|
      invariant 0 <= i <= |v.bufs| && size + Size(List(v.bufs[i..])) == Size(List(v.bufs))
    {
      assert v.bufs[i..][1..] == v.bufs[i + 1..];
      size := size + v.bufs[i].size;
      i := i + 1;
    }
  }

  ghost predicate AllAllocated(bs: seq<Buf>, st: Store) {
    forall b :: b in bs ==> b.Allocated(st)
  }

  ghost predicate AllApart(s: seq<Buf>, d: seq<Buf>) {
    forall a, b :: a in s && b in d ==> a.Key() != b.Key()
  }

  lemma {:induction false} ListAvoids(s: seq<Buf>, o: Obj)
    requires forall a :: a in s ==> a.Key() != o
    ensures Avoids(List(s), o)
  {
    if s != [] { ListAvoids(s[1..], o); }
  }

  lemma {:induction false} ListApart(s: Bufs, d: seq<Buf>)
    requires forall b :: b in d ==> Avoids(s, b.Key())
    ensures Apart(s, List(d))
  {
    if d != [] {
      assert d[0] in d;
      ListApart(s, d[1..]);
    }
  }

  lemma ViewsApart(s: BufVec, d: BufVec)
    requires s.Valid() && d.Valid() && AllApart(s.bufs, d.bufs)
    ensures Apart(s.View(), d.View())
  {
    forall b | b in d.bufs ensures Avoids(s.View(), b.Key()) {
      if s.idx < |s.bufs| { assert s.bufs[s.idx] in s.bufs; ListAvoids(s.bufs[s.idx + 1..], b.Key()); }
    }
    if d.idx < |d.bufs| { assert d.bufs[d.idx] in d.bufs; ListApart(s.View(), d.bufs[d.idx + 1..]); }
  }

  lemma {:induction false} ListAgree(s: seq<Buf>, st: Store, st': Store)
    requires forall b :: b in s ==> Data(st, b.Key()) == Data(st', b.Key())
    ensures Agree(List(s), st, st')
  {
    if s != [] {
      assert s[0] in s;
      ListAgree(s[1..], st, st');
    }
  }

  /** A vector's stream depends on the objects it names and nothing else. */
  lemma ViewAgree(v: BufVec, st: Store, st': Store)
    requires v.Valid() && forall b :: b in v.bufs ==> Data(st, b.Key()) == Data(st', b.Key())
    ensures Flat(v.View(), st) == Flat(v.View(), st')
  {
    if v.idx < |v.bufs| {
      assert v.bufs[v.idx] in v.bufs;
      ListAgree(v.bufs[v.idx + 1..], st, st');
      AgreeFlat(v.View(), st, st');
    }
  }

  lemma ViewAvoids(v: BufVec, o: Obj)
    requires v.Valid() && forall b :: b in v.bufs ==> b.Key() != o
    ensures Avoids(v.View(), o)
  {
    if v.idx < |v.bufs| {
      assert v.bufs[v.idx] in v.bufs;
      ListAvoids(v.bufs[v.idx + 1..], o);
    }
  }

  lemma NewView(v: BufVec, b: Buf)
    requires v.bufs == [b] && v.idx == 0 && v.off == 0
    ensures v.Valid() && v.View() == Cons(b, Nil) && List(v.bufs) == Cons(b, Nil) && Size(Cons(b, Nil)) == b.size
  {
    assert b.Trim(0) == b;
  }

  lemma CopyPostTrim(dst: Buf, dstOff: nat, src: Buf, srcOff: nat, n: nat, res: int, lost: nat, st: Store, st': Store)
    requires CopyPost(dst, dstOff, src, srcOff, n, res, lost, st, st')
    requires dstOff <= dst.size && srcOff <= src.size
    ensures CopyPost(dst.Trim(dstOff), 0, src.Trim(srcOff), 0, n, res, lost, st, st')
  {
    var c := if res < 0 then 0 else res;
    PutTrim(dst, dstOff, Peek(src, srcOff, n, st)[..c], st);
  }

  lemma CopyPostGrows(dst: Buf, dstOff: nat, src: Buf, srcOff: nat, n: nat, res: int, lost: nat, st: Store, st': Store)
    requires CopyPost(dst, dstOff, src, srcOff, n, res, lost, st, st')
    ensures Grown(st, st')
  {
    var c := if res < 0 then 0 else res;
    PutGrows(dst, dstOff, Peek(src, srcOff, n, st)[..c], src, c + lost, st);
  }

  /** n bytes have been copied and e more were taken from a source pipe.  Only the source's
      cursor always accounts for them: the destination's stays when the source is used up. */
  ghost predicate CopyDone(s0: Bufs, d0: Bufs, st0: Store, n: nat, e: nat, s: Bufs, d: Bufs, st: Store) {
    && n + e <= |Flat(s0, st0)| && n <= Size(d0)
    && st == Scatter(d0, Flat(s0, st0)[..n], Drain(s0, n + e, st0))
    && Skip(s, 0) == Skip(s0, n)
    && (Skip(d, 0) == Skip(d0, n) || s == Nil)
  }

  lemma CopiedNone(s: Bufs, d: Bufs, st: Store)
    ensures Copied(s, d, st, 0, s, d, st)
  {
    DrainNone(s, st);
    ScatterNone(d, st);
  }

  lemma ConsumeNothing(b: Buf, st: Store)
    ensures Consume(b, 0, st) == st
  {
  }

  lemma ChunkStep(s0: Bufs, d0: Bufs, st0: Store, n: nat, s: Bufs, d: Bufs, st: Store, c: nat, e: nat, st': Store)
    requires Apart(s0, d0) && Copied(s0, d0, st0, n, s, d, st) && s.Cons? && d.Cons? && n <= Size(d0)
    requires CopyPost(d.b, 0, s.b, 0, Min(s.b.size, d.b.size), c, e, st, st')
    ensures c <= Min(s.b.size, d.b.size) && n + c <= Size(d0)
    ensures n + c + e <= |Flat(s0, st0)|
    ensures st' == Scatter(d0, Flat(s0, st0)[..n + c], Drain(s0, n + c + e, st0))
    ensures Skip(s, c) == Skip(s0, n + c) && Skip(d, c) == Skip(d0, n + c)
  {
    hide Put, Peek, Consume, Data, Flat, Drain, Scatter, Skip;
    var len := Min(s.b.size, d.b.size);
    PeekLength(s.b, 0, len, st);
    SkipEnd(d0, n);
    SkipEnd(d, 0);
    if len > 0 { ChunkCopied(s0, d0, st0, n, s, d, st, c, e, st'); }
    else {
      PutNothing(d.b, 0, st);
      ConsumeNothing(s.b, st);
    }
  }

  lemma CopyEnds(s0: Bufs, d0: Bufs, st0: Store, n: nat, s: Bufs, d: Bufs)
    requires n <= |Flat(s0, st0)| && n <= Size(d0)
    requires (s == Nil && Skip(s, 0) == Skip(s0, n)) || (d == Nil && Skip(d, 0) == Skip(d0, n))
    ensures n == Min(|Flat(s0, st0)|, Size(d0))
  {
    hide Flat;
    FlatBound(s0, st0);
    SkipEnd(s0, n);
    SkipEnd(d0, n);
  }

  /** Where the lost bytes of a chunk can come from, and how many they can be. */
  ghost predicate LostFrom(lost: nat, srcs: seq<Buf>, dsts: seq<Buf>, flags: CopyFlags) {
    lost > 0 ==>
      && lost <= TMP_SIZE
      && (exists b :: b in srcs && b.Pipe?)
      && (exists b :: b in dsts && !b.Mem?)
      && (flags.noSplice || !flags.forceSplice)
  }

  lemma LostFromChunk(lost: nat, srcs: seq<Buf>, i: nat, dsts: seq<Buf>, j: nat, flags: CopyFlags)
    requires i < |srcs| && j < |dsts|
    requires lost > 0 ==> lost <= TMP_SIZE && srcs[i].Pipe? && !dsts[j].Mem? && (flags.noSplice || !flags.forceSplice)
    ensures LostFrom(lost, srcs, dsts, flags)
  {
    assert srcs[i] in srcs && dsts[j] in dsts;
  }

  lemma GrownAllocated(bs: seq<Buf>, st: Store, st': Store)
    requires AllAllocated(bs, st) && Grown(st, st')
    ensures AllAllocated(bs, st')
  {
  }

  /** The copying of one round of fuse_buf_copy. */
  method MoveChunk(k: Machine, dstv: BufVec, srcv: BufVec, flags: CopyFlags,
                   ghost s0: Bufs, ghost d0: Bufs, ghost st0: Store, ghost n: nat)
    returns (res: int, ghost lost: nat, len: nat)
    requires dstv.Valid() && srcv.Valid() && AllApart(srcv.bufs, dstv.bufs) && Apart(s0, d0)
    requires AllAllocated(dstv.bufs, k.st) && AllAllocated(srcv.bufs, k.st)
    requires srcv.idx < |srcv.bufs| && dstv.idx < |dstv.bufs|
    requires Copied(s0, d0, st0, n, srcv.View(), dstv.View(), k.st) && n <= Size(d0)
    modifies k
    ensures len == Min(srcv.bufs[srcv.idx].size - srcv.off, dstv.bufs[dstv.idx].size - dstv.off)
    ensures AllAllocated(dstv.bufs, k.st) && AllAllocated(srcv.bufs, k.st)
    ensures LostFrom(lost, srcv.bufs, dstv.bufs, flags)
    ensures var c := if res < 0 then 0 else res;
      && c <= len && n + c <= Size(d0) && n + c + lost <= |Flat(s0, st0)|
      && (lost > 0 ==> c < len)
      && k.st == Scatter(d0, Flat(s0, st0)[..n + c], Drain(s0, n + c + lost, st0))
      && Skip(srcv.View(), c) == Skip(s0, n + c) && Skip(dstv.View(), c) == Skip(d0, n + c)
    ensures k.reliable ==> 0 <= res && lost == 0 && (res < len ==> n + res == |Flat(s0, st0)|)
  {
    hide Put, Peek, Consume, Data, Flat, Drain, Scatter, Skip, Size, Apart, Grown;
    var src, dst := srcv.bufs[srcv.idx], dstv.bufs[dstv.idx];
    len := Min(src.size - srcv.off, dst.size - dstv.off);
    ghost var s, d, st := srcv.View(), dstv.View(), k.st;
    assert src in srcv.bufs && dst in dstv.bufs;
    AllocatedFits(src, srcv.off, len, st);
    AllocatedFits(dst, dstv.off, len, st);
    res, lost := CopyOne(k, dst, dstv.off, src, srcv.off, len, flags);
    CopyPostTrim(dst, dstv.off, src, srcv.off, len, res, lost, st, k.st);
    CopyPostGrows(dst, dstv.off, src, srcv.off, len, res, lost, st, k.st);
    GrownAllocated(srcv.bufs, st, k.st);
    GrownAllocated(dstv.bufs, st, k.st);
    LostFromChunk(lost, srcv.bufs, srcv.idx, dstv.bufs, dstv.idx, flags);
    ChunkStep(s0, d0, st0, n, s, d, st, if res < 0 then 0 else res, lost, k.st);
    if k.reliable && res < len {
      TrimPeek(src, srcv.off, len, st);
      ShortChunkEnds(s0, d0, st0, n, s, d, st);
    }
  }

  lemma AllocatedFits(b: Buf, off: nat, n: nat, st: Store)
    requires b.Allocated(st) && off + n <= b.size
    ensures Fits(b, off, n, st)
  {
  }

  /** One round of the loop of fuse_buf_copy. */
  method CopyChunk(k: Machine, dstv: BufVec, srcv: BufVec, flags: CopyFlags,
                   ghost s0: Bufs, ghost d0: Bufs, ghost st0: Store, ghost n: nat)
    returns (res: int, ghost lost: nat, more: bool)
    requires dstv != srcv && dstv.Valid() && srcv.Valid() && AllApart(srcv.bufs, dstv.bufs) && Apart(s0, d0)
    requires AllAllocated(dstv.bufs, k.st) && AllAllocated(srcv.bufs, k.st)
    requires srcv.idx < |srcv.bufs| && dstv.idx < |dstv.bufs|
    requires Copied(s0, d0, st0, n, srcv.View(), dstv.View(), k.st) && n <= Size(d0)
    modifies k, dstv`idx, dstv`off, srcv`idx, srcv`off
    ensures dstv.Valid() && srcv.Valid() && (old(srcv.Settled()) ==> srcv.Settled())
    ensures AllAllocated(dstv.bufs, k.st) && AllAllocated(srcv.bufs, k.st)
    ensures LostFrom(lost, srcv.bufs, dstv.bufs, flags)
    ensures CopyDone(s0, d0, st0, if res < 0 then n else n + res, lost, srcv.View(), dstv.View(), k.st)
    ensures more ==> 0 <= res && lost == 0 && Copied(s0, d0, st0, n + res, srcv.View(), dstv.View(), k.st)
    ensures srcv.idx >= old(srcv.idx) && dstv.idx >= old(dstv.idx)
    ensures more ==> srcv.idx + dstv.idx > old(srcv.idx + dstv.idx)
    ensures res < 0 ==> srcv.idx == old(srcv.idx) && srcv.off == old(srcv.off) && !more
    ensures 0 <= res ==> srcv.idx > old(srcv.idx) || (srcv.idx < |srcv.bufs| && srcv.off < srcv.bufs[srcv.idx].size)
    ensures k.reliable ==> 0 <= res && lost == 0 && (!more ==> n + res == Min(|Flat(s0, st0)|, Size(d0)))
  {
    hide Flat, Drain, Scatter, Skip, Size, Apart, AllAllocated, AllApart, LostFrom, Data, BufVec.View;
    var len;
    res, lost, len := MoveChunk(k, dstv, srcv, flags, s0, d0, st0, n);
    more := false;
    if res < 0 { return; }
    var on := srcv.Advance(res);
    if !on {
      CopyEnds(s0, d0, st0, n + res, srcv.View(), dstv.View());
      return;
    }
    on := dstv.Advance(res);
    if !on {
      CopyEnds(s0, d0, st0, n + res, srcv.View(), dstv.View());
      return;
    }
    more := res == len;
  }

  lemma TrimPeek(b: Buf, off: nat, n: nat, st: Store)
    requires off <= b.size
    ensures Peek(b, off, n, st) == Peek(b.Trim(off), 0, n, st)
  {
  }

  /** fuse_buf_copy.  The destination holds the first bytes of the stream that remained in the
      source, whose cursor has moved past them; lost bytes are missing from a source pipe. */
  method Copy(k: Machine, dstv: BufVec, srcv: BufVec, flags: CopyFlags) returns (res: int, ghost lost: nat)
    requires dstv != srcv ==> dstv.Valid() && srcv.Valid() && AllApart(srcv.bufs, dstv.bufs)
    requires AllAllocated(dstv.bufs, k.st) && AllAllocated(srcv.bufs, k.st)
    modifies k, dstv`idx, dstv`off, srcv`idx, srcv`off
    ensures dstv == srcv ==> res == Size(List(dstv.bufs)) && lost == 0 && unchanged(k) && unchanged(dstv)
    ensures dstv != srcv ==> dstv.Valid() && srcv.Valid() && (old(srcv.Settled()) ==> srcv.Settled())
    ensures dstv != srcv ==>
      CopyDone(old(srcv.View()), old(dstv.View()), old(k.st), if res < 0 then 0 else res, lost,
               srcv.View(), dstv.View(), k.st)
    ensures dstv != srcv && k.reliable ==>
      lost == 0 && res == Min(|Flat(old(srcv.View()), old(k.st))|, Size(old(dstv.View())))
    ensures LostFrom(lost, srcv.bufs, dstv.bufs, flags)
    ensures dstv != srcv && res < 0 ==> srcv.idx < |srcv.bufs|
    ensures dstv != srcv && 0 <= res && old(srcv.idx < |srcv.bufs| && dstv.idx < |dstv.bufs|) ==>
              srcv.idx > old(srcv.idx) || (srcv.idx < |srcv.bufs| && srcv.off < srcv.bufs[srcv.idx].size)
  {
    hide Put, Peek, Consume, Data, Flat, Drain, Scatter, Skip, Size, Apart;
    lost := 0;
    if dstv == srcv {
      res := BufSize(dstv);
      return;
    }
    ghost var st0, s0, d0 := k.st, srcv.View(), dstv.View();
    ViewsApart(srcv, dstv);
    CopiedNone(s0, d0, st0);
    res := 0;
    var copied: nat, more := 0, true;
    ghost var begun := false;
    while more && srcv.idx < |srcv.bufs| && dstv.idx < |dstv.bufs|
      invariant srcv.Valid() && dstv.Valid() && (old(srcv.Settled()) ==> srcv.Settled())
      invariant CopyDone(s0, d0, st0, copied, lost, srcv.View(), dstv.View(), k.st)
      invariant more ==> lost == 0 && Copied(s0, d0, st0, copied, srcv.View(), dstv.View(), k.st)
      invariant AllAllocated(dstv.bufs, k.st) && AllAllocated(srcv.bufs, k.st)
      invariant k.reliable ==> lost == 0 && (!more ==> copied == Min(|Flat(s0, st0)|, Size(d0)))
      invariant LostFrom(lost, srcv.bufs, dstv.bufs, flags)
      invariant srcv.idx >= old(srcv.idx) && dstv.idx >= old(dstv.idx)
      invariant if begun
                then srcv.idx > old(srcv.idx) || (srcv.idx < |srcv.bufs| && srcv.off < srcv.bufs[srcv.idx].size)
                else more && copied == 0 && srcv.idx == old(srcv.idx) && dstv.idx == old(dstv.idx)
      decreases if more then 1 + |srcv.bufs| - srcv.idx + |dstv.bufs| - dstv.idx else 0
    {
      res, lost, more := CopyChunk(k, dstv, srcv, flags, s0, d0, st0, copied);
      if res < 0 {
        if copied == 0 { return; }
      } else {
        copied, begun := copied + res, true;
      }
    }
    if more { CopyEnds(s0, d0, st0, copied, srcv.View(), dstv.View()); }
    res := copied;
  }
}
