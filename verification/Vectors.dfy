/** Lists of buffers read and written as one byte stream.

    Flat is the stream a list holds, Drain what reading a prefix of it leaves behind,
    Scatter what writing bytes along the list does, Skip the list that remains.  These
    are the simple forms that the copying loops are proved against.  */
module Vectors {
  import opened Storage

  datatype Bufs = Nil | Cons(b: Buf, rest: Bufs)

  function Size(l: Bufs): nat {
    match l
    case Nil => 0
    case Cons(b, r) => b.size + Size(r)
  }

  /** The bytes the list holds, up to the first buffer that holds fewer than its size. */
  function Flat(l: Bufs, st: Store): seq<Byte> {
    match l
    case Nil => []
    case Cons(b, r) =>
      var a := Peek(b, 0, b.size, st);
      if |a| < b.size then a else a + Flat(r, Consume(b, b.size, st))
  }

  function Drain(l: Bufs, n: nat, st: Store): Store {
    match l
    case Nil => st
    case Cons(b, r) =>
      if n <= b.size then Consume(b, n, st) else Drain(r, n - b.size, Consume(b, b.size, st))
  }

  function Scatter(l: Bufs, d: seq<Byte>, st: Store): Store {
    match l
    case Nil => st
    case Cons(b, r) =>
      if |d| <= b.size then Put(b, 0, d, st) else Scatter(r, d[b.size..], Put(b, 0, d[..b.size], st))
  }

  /** The list after its first n bytes, without leading empty buffers. */
  function Skip(l: Bufs, n: nat): Bufs {
    match l
    case Nil => Nil
    case Cons(b, r) => if b.size <= n then Skip(r, n - b.size) else Cons(b.Trim(n), r)
  }

  /** No buffer of the list names object o. */
  predicate Avoids(l: Bufs, o: Obj) {
    l.Cons? ==> l.b.Key() != o && Avoids(l.rest, o)
  }

  /** No object is read through one list and written through the other. */
  predicate Apart(s: Bufs, d: Bufs) {
    d.Cons? ==> Avoids(s, d.b.Key()) && Apart(s, d.rest)
  }

  // ---- the streams do not see where a list is cut ----

  lemma {:induction false} SkipEnd(l: Bufs, n: nat)
    ensures Size(Skip(l, n)) == if n <= Size(l) then Size(l) - n else 0
    ensures Skip(l, n) == Nil <==> Size(l) <= n
  {
    if l.Cons? && l.b.size <= n { SkipEnd(l.rest, n - l.b.size); }
  }

  lemma {:induction false} SkipAdd(l: Bufs, m: nat, n: nat)
    ensures Skip(Skip(l, m), n) == Skip(l, m + n)
  {
    if l.Cons? && l.b.size <= m { SkipAdd(l.rest, m - l.b.size, n); }
  }

  lemma {:induction false} FlatBound(l: Bufs, st: Store)
    ensures |Flat(l, st)| <= Size(l)
  {
    if l.Cons? { FlatBound(l.rest, Consume(l.b, l.b.size, st)); }
  }

  lemma DrainNone(l: Bufs, st: Store)
    ensures Drain(l, 0, st) == st
  {
  }

  lemma ScatterNone(l: Bufs, st: Store)
    ensures Scatter(l, [], st) == st
  {
  }

  /** A buffer cut after n bytes: what is read from the two parts is what was read from the whole. */
  lemma PeekTrim(b: Buf, n: nat, st: Store)
    requires n <= b.size && n <= |Peek(b, 0, b.size, st)|
    ensures Peek(b.Trim(n), 0, b.size - n, Consume(b, n, st)) == Peek(b, 0, b.size, st)[n..]
  {
    PeekNext(b, 0, b.size, n, st);
  }

  lemma ConsumeTrim(b: Buf, m: nat, n: nat, st: Store)
    requires m <= b.size && (b.Pipe? ==> m + n <= |Data(st, b.Key())|)
    ensures Consume(b.Trim(m), n, Consume(b, m, st)) == Consume(b, m + n, st)
  {
    ConsumeAdd(b, m, n, st);
  }

  lemma PeekLength(b: Buf, off: nat, n: nat, st: Store)
    ensures |Peek(b, off, n, st)| <= n
    ensures b.Pipe? ==> |Peek(b, off, n, st)| <= |Data(st, b.Key())|
  {
  }

  lemma FlatHead(b: Buf, r: Bufs, st: Store)
    ensures |Peek(b, 0, b.size, st)| == Min(b.size, |Flat(Cons(b, r), st)|)
  {
  }

  lemma FlatFull(b: Buf, r: Bufs, st: Store)
    requires b.size <= |Flat(Cons(b, r), st)|
    ensures Flat(Cons(b, r), st)[b.size..] == Flat(r, Consume(b, b.size, st))
  {
    var a := Peek(b, 0, b.size, st);
    assert |a| <= b.size;
  }

  lemma FlatTrim(b: Buf, r: Bufs, n: nat, st: Store)
    requires n < b.size && n <= |Flat(Cons(b, r), st)|
    ensures Flat(Cons(b.Trim(n), r), Consume(b, n, st)) == Flat(Cons(b, r), st)[n..]
  {
    hide Peek, Consume;
    var a := Peek(b, 0, b.size, st);
    var t, c := b.Trim(n), Consume(b, n, st);
    PeekLength(b, 0, b.size, st);
    PeekTrim(b, n, st);
    assert Peek(t, 0, t.size, c) == a[n..];
    if |a| < b.size {
      assert Flat(Cons(t, r), c) == a[n..];
    } else {
      ConsumeTrim(b, n, b.size - n, st);
      var f := Flat(r, Consume(b, b.size, st));
      assert Flat(Cons(t, r), c) == a[n..] + f;
      assert (a + f)[n..] == a[n..] + f;
    }
  }

  /** Reading n bytes and then the rest gives the stream. */
  lemma {:induction false} FlatSkip(l: Bufs, n: nat, st: Store)
    requires n <= |Flat(l, st)|
    ensures Flat(Skip(l, n), Drain(l, n, st)) == Flat(l, st)[n..]
  {
    match l
    case Nil =>
    case Cons(b, r) =>
      if n < b.size { FlatTrim(b, r, n, st); }
      else {
        var c := Consume(b, b.size, st);
        FlatFull(b, r, st);
        assert Flat(l, st)[n..] == Flat(l, st)[b.size..][n - b.size..];
        FlatSkip(r, n - b.size, c);
        DrainNone(r, c);
      }
  }

  lemma DrainTrim(b: Buf, r: Bufs, m: nat, n: nat, st: Store)
    requires m < b.size && m + n <= |Flat(Cons(b, r), st)|
    ensures Drain(Cons(b.Trim(m), r), n, Consume(b, m, st)) == Drain(Cons(b, r), m + n, st)
  {
    hide Consume, Peek;
    PeekLength(b, 0, b.size, st);
    FlatHead(b, r, st);
    ConsumeTrim(b, m, Min(n, b.size - m), st);
  }

  lemma {:induction false} DrainAdd(l: Bufs, m: nat, n: nat, st: Store)
    requires m + n <= |Flat(l, st)|
    ensures Drain(Skip(l, m), n, Drain(l, m, st)) == Drain(l, m + n, st)
  {
    match l
    case Nil =>
    case Cons(b, r) =>
      if m < b.size { DrainTrim(b, r, m, n, st); }
      else {
        FlatFull(b, r, st);
        DrainNone(r, Consume(b, b.size, st));
        DrainAdd(r, m - b.size, n, Consume(b, b.size, st));
      }
  }

  lemma ScatterTrim(b: Buf, r: Bufs, x: seq<Byte>, y: seq<Byte>, st: Store)
    requires |x| <= b.size
    ensures Scatter(Cons(b.Trim(|x|), r), y, Put(b, 0, x, st)) == Scatter(Cons(b, r), x + y, st)
  {
    hide Put;
    var p, t := Put(b, 0, x, st), b.Trim(|x|);
    if |y| <= t.size {
      PutAppend(b, 0, x, y, st);
      PutTrim(b, |x|, y, p);
    } else {
      var h := y[..t.size];
      PutAppend(b, 0, x, h, st);
      PutTrim(b, |x|, h, p);
      assert (x + y)[..b.size] == x + h && (x + y)[b.size..] == y[t.size..];
      assert Scatter(Cons(t, r), y, p) == Scatter(r, y[t.size..], Put(t, 0, h, p));
    }
  }

  lemma {:induction false} ScatterAppend(l: Bufs, x: seq<Byte>, y: seq<Byte>, st: Store)
    ensures Scatter(Skip(l, |x|), y, Scatter(l, x, st)) == Scatter(l, x + y, st)
  {
    match l
    case Nil =>
    case Cons(b, r) =>
      if b.size < |x| {
        assert (x + y)[..b.size] == x[..b.size] && (x + y)[b.size..] == x[b.size..] + y;
        ScatterAppend(r, x[b.size..], y, Put(b, 0, x[..b.size], st));
      } else {
        ScatterTrim(b, r, x, y, st);
        if b.size == |x| {
          ScatterAppend(r, [], y, Put(b, 0, x, st));
          ScatterNone(r, Put(b, 0, x, st));
          ScatterEmptyHead(b.Trim(|x|), r, y, Put(b, 0, x, st));
          assert [] + y == y;
        }
      }
  }

  lemma ScatterEmptyHead(b: Buf, r: Bufs, d: seq<Byte>, st: Store)
    requires b.size == 0
    ensures Scatter(Cons(b, r), d, st) == Scatter(r, d, st)
  {
    ScatterNone(r, st);
    assert d[..0] == [] && d[0..] == d;
  }

  // ---- reading one list and writing another ----

  lemma {:induction false} PutKeepsFlat(s: Bufs, d: Buf, x: seq<Byte>, st: Store)
    requires Avoids(s, d.Key())
    ensures Flat(s, Put(d, 0, x, st)) == Flat(s, st)
  {
    if s.Cons? {
      PutKeepsPeek(d, 0, x, s.b, 0, s.b.size, st);
      PutConsumeCommute(d, 0, x, s.b, s.b.size, st);
      PutKeepsFlat(s.rest, d, x, Consume(s.b, s.b.size, st));
    }
  }

  lemma {:induction false} ScatterKeepsFlat(s: Bufs, d: Bufs, x: seq<Byte>, st: Store)
    requires Apart(s, d)
    ensures Flat(s, Scatter(d, x, st)) == Flat(s, st)
  {
    if d.Cons? {
      if |x| <= d.b.size { PutKeepsFlat(s, d.b, x, st); }
      else {
        PutKeepsFlat(s, d.b, x[..d.b.size], st);
        ScatterKeepsFlat(s, d.rest, x[d.b.size..], Put(d.b, 0, x[..d.b.size], st));
      }
    }
  }

  lemma {:induction false} ScatterConsumeCommute(d: Bufs, x: seq<Byte>, s: Buf, n: nat, st: Store)
    requires Apart(Cons(s, Nil), d)
    ensures Scatter(d, x, Consume(s, n, st)) == Consume(s, n, Scatter(d, x, st))
  {
    if d.Cons? {
      if |x| <= d.b.size { PutConsumeCommute(d.b, 0, x, s, n, st); }
      else {
        PutConsumeCommute(d.b, 0, x[..d.b.size], s, n, st);
        ScatterConsumeCommute(d.rest, x[d.b.size..], s, n, Put(d.b, 0, x[..d.b.size], st));
      }
    }
  }

  lemma {:induction false} AvoidsSkip(l: Bufs, n: nat, o: Obj)
    requires Avoids(l, o)
    ensures Avoids(Skip(l, n), o)
  {
    if l.Cons? && l.b.size <= n { AvoidsSkip(l.rest, n - l.b.size, o); }
  }

  lemma {:induction false} ApartSkip(s: Bufs, n: nat, d: Bufs)
    requires Apart(s, d)
    ensures Apart(Skip(s, n), d)
    ensures Skip(s, n).Cons? ==> Apart(Cons(Skip(s, n).b, Nil), d)
  {
    if d.Cons? {
      AvoidsSkip(s, n, d.b.Key());
      ApartSkip(s, n, d.rest);
    }
  }

  /** No object is gone and no block of memory has become shorter. */
  ghost predicate Grown(st: Store, st': Store) {
    && st.Keys <= st'.Keys
    && forall a :: |Data(st, Block(a))| <= |Data(st', Block(a))|
  }

  lemma PutGrows(b: Buf, off: nat, d: seq<Byte>, s: Buf, n: nat, st: Store)
    ensures Grown(st, Consume(s, n, Put(b, off, d, st)))
  {
  }

  lemma {:induction false} DrainGrows(l: Bufs, n: nat, st: Store)
    ensures Grown(st, Drain(l, n, st))
  {
    if l.Cons? && n > l.b.size { DrainGrows(l.rest, n - l.b.size, Consume(l.b, l.b.size, st)); }
  }

  lemma {:induction false} ScatterGrows(l: Bufs, d: seq<Byte>, st: Store)
    ensures Grown(st, Scatter(l, d, st))
  {
    if l.Cons? {
      if |d| <= l.b.size { PutGrows(l.b, 0, d, l.b, 0, st); }
      else {
        PutGrows(l.b, 0, d[..l.b.size], l.b, 0, st);
        ScatterGrows(l.rest, d[l.b.size..], Put(l.b, 0, d[..l.b.size], st));
      }
    }
  }

  // ---- a list sees only the objects it names ----

  predicate Agree(l: Bufs, st: Store, st': Store) {
    l.Cons? ==> Data(st, l.b.Key()) == Data(st', l.b.Key()) && Agree(l.rest, st, st')
  }

  lemma {:induction false} AgreeConsume(l: Bufs, b: Buf, n: nat, st: Store, st': Store)
    requires Agree(l, st, st') && Data(st, b.Key()) == Data(st', b.Key())
    ensures Agree(l, Consume(b, n, st), Consume(b, n, st'))
  {
    if l.Cons? { AgreeConsume(l.rest, b, n, st, st'); }
  }

  lemma {:induction false} AgreeFlat(l: Bufs, st: Store, st': Store)
    requires Agree(l, st, st')
    ensures Flat(l, st) == Flat(l, st')
  {
    if l.Cons? {
      AgreeConsume(l.rest, l.b, l.b.size, st, st');
      AgreeFlat(l.rest, Consume(l.b, l.b.size, st), Consume(l.b, l.b.size, st'));
    }
  }

  lemma {:induction false} DrainKeeps(l: Bufs, n: nat, st: Store, o: Obj)
    requires Avoids(l, o) || !o.Fifo?
    ensures Data(Drain(l, n, st), o) == Data(st, o)
  {
    if l.Cons? && n > l.b.size { DrainKeeps(l.rest, n - l.b.size, Consume(l.b, l.b.size, st), o); }
  }

  // ---- one chunk between the heads of the two lists ----

  /** n bytes have been copied from the list s0 to the list d0; s and d remain. */
  ghost predicate Copied(s0: Bufs, d0: Bufs, st0: Store, n: nat, s: Bufs, d: Bufs, st: Store) {
    && n <= |Flat(s0, st0)|
    && Skip(s, 0) == Skip(s0, n)
    && Skip(d, 0) == Skip(d0, n)
    && st == Scatter(d0, Flat(s0, st0)[..n], Drain(s0, n, st0))
  }

  lemma PeekShorter(b: Buf, off: nat, m: nat, n: nat, st: Store)
    requires m <= n
    ensures Peek(b, off, m, st) == Peek(b, off, n, st)[..Min(m, |Peek(b, off, n, st)|)]
  {
  }

  /** What one chunk can read is the beginning of the stream. */
  lemma PeekFlat(b: Buf, r: Bufs, len: nat, st: Store)
    requires len <= b.size
    ensures Peek(b, 0, len, st) == Flat(Cons(b, r), st)[..Min(len, |Flat(Cons(b, r), st)|)]
  {
    hide Consume, Slice;
    PeekShorter(b, 0, len, b.size, st);
    PeekLength(b, 0, b.size, st);
  }

  lemma Pieces(f: seq<Byte>, n: nat, q: seq<Byte>, c: nat)
    requires n <= |f| && q <= f[n..] && c <= |q|
    ensures n + c <= |f| && f[..n] + q[..c] == f[..n + c]
  {
    assert q[..c] == f[n..][..c] == f[n..n + c];
  }

  /** Copying c bytes from the head of s to the head of d, and taking e more out of s. */
  lemma {:induction false} ChunkCopied(s0: Bufs, d0: Bufs, st0: Store, n: nat, s: Bufs, d: Bufs, st: Store,
                                       c: nat, e: nat, st': Store)
    requires Apart(s0, d0) && Copied(s0, d0, st0, n, s, d, st) && s.Cons? && d.Cons?
    requires s.b.size > 0 && d.b.size > 0
    requires var q := Peek(s.b, 0, Min(s.b.size, d.b.size), st);
      c + e <= |q| && st' == Consume(s.b, c + e, Put(d.b, 0, q[..c], st))
    ensures n + c + e <= |Flat(s0, st0)|
    ensures st' == Scatter(d0, Flat(s0, st0)[..n + c], Drain(s0, n + c + e, st0))
    ensures Skip(s, c) == Skip(s0, n + c) && Skip(d, c) == Skip(d0, n + c)
  {
    hide Put, Peek, Consume, Data, Flat, Drain, Scatter, Skip, Apart, Avoids;
    HeadFacts(s, 0, [], st);
    HeadFacts(d, 0, [], st);
    var f, dr := Flat(s0, st0), Drain(s0, n, st0);
    var len := Min(s.b.size, d.b.size);
    var q := Peek(s.b, 0, len, st);
    PeekLength(s.b, 0, len, st);
    SkipAdd(s0, n, c);
    SkipAdd(d0, n, c);
    FlatSkip(s0, n, st0);
    ApartSkip(s0, n, d0);
    ScatterKeepsFlat(s, d0, f[..n], dr);
    PeekFlat(s.b, s.rest, len, st);
    assert s == Cons(s.b, s.rest) && q <= f[n..];
    Pieces(f, n, q, c);
    ScatterAppend(d0, f[..n], q[..c], dr);
    HeadFacts(d, 0, q[..c], st);
    assert Put(d.b, 0, q[..c], st) == Scatter(d0, f[..n + c], dr);
    ScatterConsumeCommute(d0, f[..n + c], s.b, c + e, dr);
    HeadFacts(s, c + e, [], dr);
    DrainAdd(s0, n, c + e, st0);
  }

  /** A chunk that comes back short ends the stream. */
  lemma ShortChunkEnds(s0: Bufs, d0: Bufs, st0: Store, n: nat, s: Bufs, d: Bufs, st: Store)
    requires Apart(s0, d0) && Copied(s0, d0, st0, n, s, d, st) && s.Cons? && d.Cons?
    requires s.b.size > 0 && d.b.size > 0
    requires |Peek(s.b, 0, Min(s.b.size, d.b.size), st)| < Min(s.b.size, d.b.size)
    ensures |Flat(s0, st0)| == n + |Peek(s.b, 0, Min(s.b.size, d.b.size), st)|
  {
    hide Put, Peek, Consume, Data, Drain, Scatter, Apart, Avoids;
    HeadFacts(s, 0, [], st);
    FlatSkip(s0, n, st0);
    ApartSkip(s0, n, d0);
    ScatterKeepsFlat(s, d0, Flat(s0, st0)[..n], Drain(s0, n, st0));
    PeekFlat(s.b, s.rest, Min(s.b.size, d.b.size), st);
  }

  /** A prefix that fits the first buffer is read or written there. */
  lemma HeadFacts(l: Bufs, n: nat, d: seq<Byte>, st: Store)
    requires l.Cons? && l.b.size > 0 && n <= l.b.size && |d| <= l.b.size
    ensures Skip(l, 0) == l
    ensures Drain(l, n, st) == Consume(l.b, n, st)
    ensures Scatter(l, d, st) == Put(l.b, 0, d, st)
  {
  }

  // ---- writing, then reading back ----

  predicate Distinct(l: Bufs) {
    l.Cons? ==> Avoids(l.rest, l.b.Key()) && Distinct(l.rest)
  }

  predicate PipesEmpty(l: Bufs, st: Store) {
    l.Cons? ==> (l.b.Pipe? ==> Data(st, l.b.Key()) == []) && PipesEmpty(l.rest, st)
  }

  lemma PeekPut(b: Buf, d: seq<Byte>, st: Store)
    requires b.Pipe? ==> Data(st, b.Key()) == []
    requires |d| <= b.size
    ensures d <= Peek(b, 0, b.size, Put(b, 0, d, st))
  {
  }

  lemma {:induction false} ScatterKeepsPeek(l: Bufs, d: seq<Byte>, b: Buf, st: Store)
    requires Avoids(l, b.Key())
    ensures Peek(b, 0, b.size, Scatter(l, d, st)) == Peek(b, 0, b.size, st)
  {
    if l.Cons? {
      if |d| <= l.b.size { PutKeepsPeek(l.b, 0, d, b, 0, b.size, st); }
      else {
        PutKeepsPeek(l.b, 0, d[..l.b.size], b, 0, b.size, st);
        ScatterKeepsPeek(l.rest, d[l.b.size..], b, Put(l.b, 0, d[..l.b.size], st));
      }
    }
  }

  lemma {:induction false} PipesStayEmpty(l: Bufs, b: Buf, d: seq<Byte>, n: nat, st: Store)
    requires Avoids(l, b.Key()) && PipesEmpty(l, st)
    ensures PipesEmpty(l, Consume(b, n, Put(b, 0, d, st)))
  {
    if l.Cons? { PipesStayEmpty(l.rest, b, d, n, st); }
  }

  lemma {:induction false} AvoidsApart(l: Bufs, b: Buf)
    requires Avoids(l, b.Key())
    ensures Apart(Cons(b, Nil), l)
  {
    if l.Cons? { AvoidsApart(l.rest, b); }
  }

  lemma ScatterPastHead(b: Buf, r: Bufs, d: seq<Byte>, st: Store)
    requires Avoids(r, b.Key()) && (b.Pipe? ==> Data(st, b.Key()) == []) && b.size < |d|
    ensures var p := Consume(b, b.size, Put(b, 0, d[..b.size], st));
      Flat(Cons(b, r), Scatter(Cons(b, r), d, st)) == d[..b.size] + Flat(r, Scatter(r, d[b.size..], p))
  {
    var h, t := d[..b.size], d[b.size..];
    var p := Put(b, 0, h, st);
    var q := Scatter(r, t, p);
    PeekPut(b, h, st);
    ScatterKeepsPeek(r, t, b, p);
    assert Peek(b, 0, b.size, q) == h;
    AvoidsApart(r, b);
    ScatterConsumeCommute(r, t, b, b.size, p);
  }

  lemma ReadBackHead(b: Buf, r: Bufs, d: seq<Byte>, st: Store)
    requires (b.Pipe? ==> Data(st, b.Key()) == []) && |d| <= b.size
    ensures d <= Flat(Cons(b, r), Scatter(Cons(b, r), d, st))
  {
    hide Put, Peek, Consume, Data;
    PeekPut(b, d, st);
  }

  lemma PrefixAfter(h: seq<Byte>, x: seq<Byte>, y: seq<Byte>)
    requires x <= y
    ensures h + x <= h + y
  {
    assert y == x + y[|x|..];
    assert h + y == (h + x) + y[|x|..];
  }

  /** Bytes written along a list of distinct objects are what the list then holds. */
  lemma {:induction false} ScatterReadBack(l: Bufs, d: seq<Byte>, st: Store)
    requires Distinct(l) && PipesEmpty(l, st) && |d| <= Size(l)
    ensures d <= Flat(l, Scatter(l, d, st))
  {
    hide Put, Peek, Consume, Data, Flat, Scatter, Avoids;
    match l
    case Nil =>
    case Cons(b, r) =>
      if |d| <= b.size { ReadBackHead(b, r, d, st); }
      else {
        var h, t := d[..b.size], d[b.size..];
        var p := Consume(b, b.size, Put(b, 0, h, st));
        ScatterPastHead(b, r, d, st);
        PipesStayEmpty(r, b, h, b.size, st);
        ScatterReadBack(r, t, p);
        PrefixAfter(h, t, Flat(r, Scatter(r, t, p)));
        assert d == h + t;
      }
  }
}
