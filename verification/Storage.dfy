/** Bytes, the objects that hold them, and the buffers that name a part of an object.

    A machine's storage is one map: memory blocks, files and pipes (anything read
    or written without a position) are objects holding a sequence of bytes.  */
module Storage {

  newtype Byte = b: int | 0 <= b < 256

  datatype Obj = Block(addr: nat) | Inode(fd: nat) | Fifo(fd: nat)

  type Store = map<Obj, seq<Byte>>

  /** struct fuse_buf: memory, a descriptor used with a position, or one used without. */
  datatype Buf =
    | Mem(size: nat, addr: nat, pos: nat)
    | File(size: nat, fd: nat, pos: nat, retry: bool)
    | Pipe(size: nat, fd: nat, retry: bool)
  {
    function Key(): Obj {
      match this
      case Mem(_, a, _) => Block(a)
      case File(_, fd, _, _) => Inode(fd)
      case Pipe(_, fd, _) => Fifo(fd)
    }

    /** The buffer that remains when its first n bytes are left out. */
    function Trim(n: nat): Buf
      requires n <= size
    {
      match this
      case Mem(s, a, p) => Mem(s - n, a, p + n)
      case File(s, fd, p, r) => File(s - n, fd, p + n, r)
      case Pipe(s, fd, r) => Pipe(s - n, fd, r)
    }

    /** Memory is allocated over its whole length; descriptors always are. */
    predicate Allocated(st: Store) {
      Mem? ==> pos + size <= |Data(st, Key())|
    }
  }

  function Min(a: nat, b: nat): nat { if a < b then a else b }

  function Data(st: Store, o: Obj): seq<Byte> { if o in st then st[o] else [] }

  /** The at most n bytes of s that start at p. */
  function Slice(s: seq<Byte>, p: nat, n: nat): seq<Byte> {
    if p >= |s| then [] else s[p..Min(p + n, |s|)]
  }

  /** The first p bytes of s, filled up with zeros. */
  function Resize(s: seq<Byte>, p: nat): (r: seq<Byte>)
    ensures |r| == p
  {
    if p <= |s| then s[..p] else s + seq(p - |s|, _ => 0)
  }

  function Drop(s: seq<Byte>, p: nat): seq<Byte> { if p <= |s| then s[p..] else [] }

  /** What pwrite leaves behind: d at position p, a gap filled with zeros. */
  function Overlay(s: seq<Byte>, p: nat, d: seq<Byte>): seq<Byte> {
    if d == [] then s else Resize(s, p) + d + Drop(s, p + |d|)
  }

  /** The at most n bytes that can be had from b at offset off. */
  function Peek(b: Buf, off: nat, n: nat, st: Store): seq<Byte> {
    Slice(Data(st, b.Key()), if b.Pipe? then 0 else b.pos + off, n)
  }

  /** Memory may be touched from offset off on for n bytes; descriptors always may. */
  predicate Fits(b: Buf, off: nat, n: nat, st: Store) {
    b.Mem? ==> b.pos + off + n <= |Data(st, b.Key())|
  }

  lemma FitsPeek(b: Buf, off: nat, n: nat, st: Store)
    requires b.Mem? && Fits(b, off, n, st)
    ensures |Peek(b, off, n, st)| == n
  {
  }

  /** Reading n bytes takes them out of a pipe and leaves everything else alone. */
  function Consume(b: Buf, n: nat, st: Store): Store {
    if b.Pipe? && n > 0 then st[b.Key() := Data(st, b.Key())[Min(n, |Data(st, b.Key())|)..]] else st
  }

  /** The new bytes of the object behind b when d is written at offset off. */
  function Written(b: Buf, off: nat, d: seq<Byte>, s: seq<Byte>): seq<Byte> {
    if b.Pipe? then s + d else Overlay(s, b.pos + off, d)
  }

  /** Writing d to b at offset off. */
  function Put(b: Buf, off: nat, d: seq<Byte>, st: Store): Store {
    if d == [] then st else st[b.Key() := Written(b, off, d, Data(st, b.Key()))]
  }

  lemma {:induction false} OverlayParts(s: seq<Byte>, p: nat, a: seq<Byte>, n: nat)
    requires a != []
    ensures Resize(Overlay(s, p, a), p + |a|) == Resize(s, p) + a
    ensures Drop(Overlay(s, p, a), p + |a| + n) == Drop(s, p + |a| + n)
  {
    var h, t := Resize(s, p) + a, Drop(s, p + |a|);
    assert Overlay(s, p, a) == h + t && |h| == p + |a|;
    assert (h + t)[..|h|] == h;
    assert Drop(h + t, |h| + n) == Drop(t, n);
  }

  lemma {:induction false} OverlayAppend(s: seq<Byte>, p: nat, a: seq<Byte>, b: seq<Byte>)
    ensures Overlay(Overlay(s, p, a), p + |a|, b) == Overlay(s, p, a + b)
  {
    hide Resize, Drop;
    if b == [] { assert a + b == a; } else if a == [] { assert a + b == b; } else {
      OverlayParts(s, p, a, |b|);
      assert Resize(s, p) + a + b == Resize(s, p) + (a + b);
    }
  }

  lemma OverlaySelf(s: seq<Byte>, p: nat, n: nat)
    requires p + n <= |s|
    ensures Overlay(s, p, s[p..p + n]) == s
  {
  }

  lemma {:induction false} WrittenAppend(b: Buf, off: nat, x: seq<Byte>, y: seq<Byte>, s: seq<Byte>)
    ensures Written(b, off + |x|, y, Written(b, off, x, s)) == Written(b, off, x + y, s)
  {
    hide Overlay;
    if b.Pipe? { assert s + x + y == s + (x + y); } else { OverlayAppend(s, b.pos + off, x, y); }
  }

  lemma {:induction false} PutAppend(b: Buf, off: nat, x: seq<Byte>, y: seq<Byte>, st: Store)
    ensures Put(b, off + |x|, y, Put(b, off, x, st)) == Put(b, off, x + y, st)
  {
    if y == [] { assert x + y == x; } else if x == [] { assert x + y == y; } else {
      hide Written;
      var s, o := Data(st, b.Key()), b.Key();
      var w := Written(b, off, x, s);
      WrittenAppend(b, off, x, y, s);
      assert Data(Put(b, off, x, st), o) == w;
      assert st[o := w][o := Written(b, off + |x|, y, w)] == st[o := Written(b, off, x + y, s)];
    }
  }

  lemma PutTrim(b: Buf, off: nat, d: seq<Byte>, st: Store)
    requires off <= b.size
    ensures Put(b, off, d, st) == Put(b.Trim(off), 0, d, st)
  {
  }

  lemma ConsumeAdd(b: Buf, m: nat, n: nat, st: Store)
    requires b.Pipe? ==> m + n <= |Data(st, b.Key())|
    ensures Consume(b, n, Consume(b, m, st)) == Consume(b, m + n, st)
  {
    if b.Pipe? && m > 0 && n > 0 {
      var s := Data(st, b.Key());
      assert s[m..][n..] == s[m + n..];
    }
  }

  /** Having read k of the available bytes, the rest is what is available next. */
  lemma PeekNext(b: Buf, off: nat, n: nat, k: nat, st: Store)
    requires k <= |Peek(b, off, n, st)|
    ensures Peek(b, off + k, n - k, Consume(b, k, st)) == Peek(b, off, n, st)[k..]
  {
  }

  /** Reading one object and writing another commute. */
  lemma PutConsumeCommute(d: Buf, off: nat, x: seq<Byte>, s: Buf, n: nat, st: Store)
    requires d.Key() != s.Key()
    ensures Put(d, off, x, Consume(s, n, st)) == Consume(s, n, Put(d, off, x, st))
  {
  }

  lemma PutKeepsPeek(d: Buf, off: nat, x: seq<Byte>, s: Buf, o: nat, n: nat, st: Store)
    requires d.Key() != s.Key()
    ensures Peek(s, o, n, Put(d, off, x, st)) == Peek(s, o, n, st)
  {
  }
}
