/** f3.cc: sfs_read, which waits for bytes that the producer has published and the download
    has not stored yet, while the transfer goes on. */
module ConsumerRead {
  import opened Storage
  import opened Decimal
  import opened PublishedSize
  import opened Transfer

  /** The whole system at the moments at which a reader of h's local file looks at it: the
      first can be reached, and each later one from the one before. */
  ghost predicate Moments(ms: seq<System>, h: Hid) {
    && ms != [] && (exists es :: Trace(EMPTY, es, ms[0])) && h in ms[0].conns
    && (forall k :: 0 <= k < |ms| - 1 ==> Reach(ms[k], ms[k + 1]))
  }

  /** The producer's file, for the connection h. */
  function Produced(s: System, h: Hid): seq<Byte> {
    if h in s.conns && FileOf(s.conns[h].message) in s.files then s.files[FileOf(s.conns[h].message)].data else []
  }

  lemma {:induction false} Reachable(ms: seq<System>, h: Hid, i: nat)
    requires Moments(ms, h) && i < |ms|
    ensures exists es :: Trace(EMPTY, es, ms[i])
  {
    hide Trace;
    if i > 0 {
      Reachable(ms, h, i - 1);
      var es :| Trace(EMPTY, es, ms[i - 1]);
      assert Reach(ms[i - 1], ms[i - 1 + 1]);
      var fs :| Trace(ms[i - 1], fs, ms[i]);
      Concat(EMPTY, es, ms[i - 1], fs, ms[i]);
    }
  }

  /** The connection stays the same one, and its local file only grows. */
  lemma {:induction false} Progress(ms: seq<System>, h: Hid, i: nat, j: nat)
    requires Moments(ms, h) && i <= j < |ms|
    ensures h in ms[i].conns && h in ms[j].conns && ms[j].conns[h].pre == ms[i].conns[h].pre
    ensures ms[i].conns[h].local <= ms[j].conns[h].local
    decreases j
  {
    hide Trace, FileOf, Good;
    if j > 0 {
      Progress(ms, h, if i < j then i else i - 1, j - 1);
      Reachable(ms, h, j - 1);
      var es :| Trace(EMPTY, es, ms[j - 1]);
      Reached(es, ms[j - 1], h);
      assert Reach(ms[j - 1], ms[j - 1 + 1]);
      var fs :| Trace(ms[j - 1], fs, ms[j]);
      LocalOnlyGrows(ms[j - 1], fs, ms[j], h);
    }
  }

  /** At every moment it holds a prefix of what the producer has written in the end, if it
      started empty and one goroutine fills it. */
  lemma SeesProducer(ms: seq<System>, h: Hid, i: nat)
    requires Moments(ms, h) && i < |ms|
    requires var last := ms[|ms| - 1]; h in last.conns && last.conns[h].pre == [] && !last.conns[h].shared
    ensures h in ms[i].conns && ms[i].conns[h].local <= Produced(ms[|ms| - 1], h)
  {
    hide Trace, FileOf, Good, Moments;
    var n := |ms| - 1;
    Progress(ms, h, i, n);
    Reachable(ms, h, n);
    var es :| Trace(EMPTY, es, ms[n]);
    ConsumerSeesProducer(es, ms[n], h);
  }

  /** What pread returns. */
  function Pread(data: seq<Byte>, off: nat, size: nat): (r: seq<Byte>)
    ensures |r| <= size
  {
    if off >= |data| then [] else if off + size <= |data| then data[off..off + size] else data[off..]
  }

  lemma PreadOfPrefix(data: seq<Byte>, whole: seq<Byte>, off: nat, size: nat)
    requires data <= whole
    ensures Pread(data, off, size) <= Pread(whole, off, size)
    ensures off + size <= |data| ==> Pread(data, off, size) == whole[off..off + size]
  {
    var r, w := Pread(data, off, size), Pread(whole, off, size);
    assert forall k :: 0 <= k < |r| ==> r[k] == w[k];
  }

  const POLLS := 24

  /** sfs_read.  It looks at the moments ms: once before the loop, then at most 24 times, and
      when it reads.  fails[k] says that the k-th fstatat fails, which leaves st_size as it
      was, at first whatever is in memory.  What it returns is never anything but the
      producer's bytes for the range, as far as they go; and a read that ends below the
      published size, does not time out and whose first fstatat succeeds returns all of them. */
  method SfsRead(ms: seq<System>, fails: seq<bool>, memory: nat, h: Hid, off: nat, size: nat, target: nat)
    returns (bytes: seq<Byte>, polls: nat, timedOut: bool)
    requires Moments(ms, h) && |ms| == POLLS + 2 && |fails| == POLLS + 1
    requires h in ms[POLLS + 1].conns && ms[POLLS + 1].conns[h].pre == [] && !ms[POLLS + 1].conns[h].shared
    ensures polls <= POLLS && (timedOut ==> polls == POLLS) && h in ms[polls + 1].conns
    ensures h in ms[0].conns &&
            (polls > 0 ==> off + size < target && (!fails[0] ==> |ms[0].conns[h].local| < off + size))
    ensures bytes == Pread(ms[polls + 1].conns[h].local, off, size)
    ensures bytes <= Pread(Produced(ms[POLLS + 1], h), off, size)
    ensures off + size < target && !timedOut && !fails[0] ==>
              && off + size <= |Produced(ms[POLLS + 1], h)|
              && bytes == Produced(ms[POLLS + 1], h)[off..off + size]
  {
    hide Moments, Produced;
    Progress(ms, h, 0, 0);
    var stat := if fails[0] then memory else |ms[0].conns[h].local|;
    polls := 0;
    while stat < off + size && off + size < target && polls < POLLS
      invariant polls <= POLLS && (polls > 0 ==> off + size < target)
      invariant h in ms[polls].conns && (!fails[0] ==> stat <= |ms[polls].conns[h].local|)
      invariant polls > 0 && !fails[0] ==> |ms[0].conns[h].local| < off + size
      invariant polls == 0 && !fails[0] ==> stat == |ms[0].conns[h].local|
      decreases POLLS - polls
    {
      Progress(ms, h, polls, polls + 1);
      polls := polls + 1;
      if !fails[polls] { stat := |ms[polls].conns[h].local|; }
    }
    timedOut := stat < off + size && off + size < target;
    Progress(ms, h, polls, polls + 1);
    SeesProducer(ms, h, polls + 1);
    bytes := Pread(ms[polls + 1].conns[h].local, off, size);
    PreadOfPrefix(ms[polls + 1].conns[h].local, Produced(ms[POLLS + 1], h), off, size);
  }

  /** sfs_open and sfs_read, from the producer's writes to the consumer's bytes: a read that ends
      within the file that is transferred, and below what a long can say, and does not time
      out returns its bytes, whatever writes made the file.  One that ends at or beyond the
      end of the file waits only if an empty write lies beyond it. */
  method OpenAndRead(ws: seq<Write>, ms: seq<System>, fails: seq<bool>, memory: nat, h: Hid, off: nat, size: nat)
    returns (bytes: seq<Byte>, polls: nat, timedOut: bool)
    requires Moments(ms, h) && |ms| == POLLS + 2 && |fails| == POLLS + 1
    requires h in ms[POLLS + 1].conns && ms[POLLS + 1].conns[h].pre == [] && !ms[POLLS + 1].conns[h].shared
    requires Produced(ms[POLLS + 1], h) == FileAfter([], ws)
    ensures bytes <= Pread(FileAfter([], ws), off, size)
    ensures off + size < Min(|FileAfter([], ws)|, LONG_MAX) && !timedOut && !fails[0] ==>
              bytes == FileAfter([], ws)[off..off + size]
    ensures |FileAfter([], ws)| <= off + size && Within(ws) && |FileAfter([], ws)| <= LONG_MAX ==> polls == 0
  {
    TargetIsLength(ws);
    var target := Strtol(Print(SizeAfter(0, ws)));
    bytes, polls, timedOut := SfsRead(ms, fails, memory, h, off, size, target);
  }
}
