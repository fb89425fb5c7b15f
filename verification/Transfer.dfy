/** client-server: a producer writes a file and says when it is done, a server streams it to
    any number of clients, and each client appends what arrives to a local file.  The steps
    of all of them may interleave; done messages may be late or lost. */
module Transfer {
  import Storage

  type Hid = nat        // one run of the server's handleConnection
  type Gid = nat        // one goroutine of the client that copies from the connection
  type Byte = Storage.Byte

  /** The producer's file: released once a handle on it was released, late once something
      was appended after that. */
  datatype File = File(data: seq<Byte>, released: bool, late: bool)

  /** handleConnection: in the copy of the loop; about to look for the mark; in the copy
      after the loop; connection closed; marks deleted. */
  datatype Pc = Copying | Checking | Finishing | Closed | Cleared

  /** One connection, from the server's position in the file to the client's local file.
      shared: a second goroutine was ever started on it.  open: the local file is. */
  datatype Conn = Conn(message: string, pc: Pc, pos: nat, flight: seq<Byte>,
                       pre: seq<Byte>, local: seq<Byte>, first: Gid, bufs: map<Gid, seq<Byte>>,
                       open: bool, shared: bool)
  {
    predicate Over() { pc == Closed || pc == Cleared }

    /** What the one goroutine has read and not stored yet. */
    function InHand(): seq<Byte> { if first in bufs then bufs[first] else [] }
  }

  datatype System = System(files: map<string, File>, wire: multiset<string>, marks: set<string>, conns: map<Hid, Conn>)

  datatype Event =
    | Create(name: string)
    | Append(name: string, bytes: seq<Byte>)   // do_write_buf on the producer
    | Release(name: string)                    // sfs_release: send_fname_done
    | Deliver(name: string)                    // the server's fuseConnectionHandler sets the mark
    | Lose(name: string)
    | Connect(h: Hid, message: string, pre: seq<Byte>, g: Gid)   // openConnection, and its goroutine
    | Join(h: Hid, g: Gid)                     // a later request for the same path
    | Send(h: Hid, n: nat)                     // one read and write of io.Copy
    | Eof(h: Hid)                              // io.Copy returns
    | Check(h: Hid)                            // the look into writeComplete
    | Clear(h: Hid)                            // the two deletes
    | Receive(h: Hid, g: Gid, n: nat)          // one read of io.CopyBuffer on the client
    | Store(h: Hid, g: Gid)                    // and its write
    | End(h: Hid, g: Gid)                      // it returns, and the local file is closed

  /** path.Join puts a leading slash away, so both spellings of a name are one file. */
  function FileOf(name: string): string {
    if name != "" && name[0] == '/' then FileOf(name[1..]) else name
  }

  /** The marks that end the loop of a handler. */
  function MarksOf(message: string): set<string> { {message, "/" + message} }

  predicate Enabled(s: System, e: Event) {
    match e
    case Create(name) => FileOf(name) !in s.files
    case Append(name, bytes) => FileOf(name) in s.files && bytes != []
    case Release(name) => FileOf(name) in s.files
    case Deliver(name) => name in s.wire
    case Lose(name) => name in s.wire
    case Connect(h, message, _, _) => h !in s.conns && FileOf(message) in s.files
    case Join(h, g) => h in s.conns && g !in s.conns[h].bufs && g != s.conns[h].first
    case Send(h, n) => h in s.conns && CanSend(s, s.conns[h], n)
    case Eof(h) => h in s.conns && AtEof(s, s.conns[h])
    case Check(h) => h in s.conns && s.conns[h].pc == Checking
    case Clear(h) => h in s.conns && s.conns[h].pc == Closed
    case Receive(h, g, n) =>
      h in s.conns && g in s.conns[h].bufs && s.conns[h].bufs[g] == [] && 0 < n <= |s.conns[h].flight|
    case Store(h, g) => h in s.conns && g in s.conns[h].bufs && s.conns[h].bufs[g] != []
    case End(h, g) =>
      h in s.conns && g in s.conns[h].bufs && s.conns[h].bufs[g] == [] && s.conns[h].flight == [] && s.conns[h].Over()
  }

  predicate CanSend(s: System, c: Conn, n: nat) {
    c.pc in {Copying, Finishing} && FileOf(c.message) in s.files && 0 < n &&
    c.pos + n <= |s.files[FileOf(c.message)].data|
  }

  predicate AtEof(s: System, c: Conn) {
    c.pc in {Copying, Finishing} && FileOf(c.message) in s.files && c.pos == |s.files[FileOf(c.message)].data|
  }

  function Next(s: System, e: Event): System
    requires Enabled(s, e)
  {
    match e
    case Create(name) => s.(files := s.files[FileOf(name) := File([], false, false)])
    case Append(name, bytes) => s.(files := s.files[FileOf(name) := Appended(s.files[FileOf(name)], bytes)])
    case Release(name) =>
      s.(files := s.files[FileOf(name) := s.files[FileOf(name)].(released := true)], wire := s.wire + multiset{name})
    case Deliver(name) => s.(wire := s.wire - multiset{name}, marks := s.marks + {name})
    case Lose(name) => s.(wire := s.wire - multiset{name})
    case Connect(h, message, pre, g) =>
      s.(conns := s.conns[h := Conn(message, Copying, 0, [], pre, pre, g, map[g := []], true, false)])
    case Join(h, g) => s.(conns := s.conns[h := s.conns[h].(bufs := s.conns[h].bufs[g := []], shared := true)])
    case Send(h, n) => s.(conns := s.conns[h := Sent(s.conns[h], s.files[FileOf(s.conns[h].message)], n)])
    case Eof(h) => s.(conns := s.conns[h := s.conns[h].(pc := if s.conns[h].pc == Copying then Checking else Closed)])
    case Check(h) =>
      var c := s.conns[h];
      s.(conns := s.conns[h := c.(pc := if MarksOf(c.message) * s.marks != {} then Finishing else Copying)])
    case Clear(h) =>
      s.(conns := s.conns[h := s.conns[h].(pc := Cleared)], marks := s.marks - MarksOf(s.conns[h].message))
    case Receive(h, g, n) => s.(conns := s.conns[h := Received(s.conns[h], g, n)])
    case Store(h, g) => s.(conns := s.conns[h := Stored(s.conns[h], g)])
    case End(h, g) => s.(conns := s.conns[h := s.conns[h].(bufs := s.conns[h].bufs - {g}, open := false)])
  }

  function Appended(f: File, bytes: seq<Byte>): File {
    f.(data := f.data + bytes, late := f.late || f.released)
  }

  function Sent(c: Conn, f: File, n: nat): Conn
    requires c.pos + n <= |f.data|
  {
    c.(flight := c.flight + f.data[c.pos..c.pos + n], pos := c.pos + n)
  }

  function Received(c: Conn, g: Gid, n: nat): Conn
    requires n <= |c.flight|
  {
    c.(bufs := c.bufs[g := c.flight[..n]], flight := c.flight[n..])
  }

  /** A write to a local file that another goroutine has closed fails, and ends this one. */
  function Stored(c: Conn, g: Gid): Conn
    requires g in c.bufs
  {
    if c.open then c.(local := c.local + c.bufs[g], bufs := c.bufs[g := []]) else c.(bufs := c.bufs - {g})
  }

  ghost predicate Trace(s: System, es: seq<Event>, t: System)
    decreases |es|
  {
    if es == [] then s == t else Enabled(s, es[0]) && Trace(Next(s, es[0]), es[1..], t)
  }

  const EMPTY := System(map[], multiset{}, {}, map[])

  // ---- what every step keeps ----

  /** Nothing is lost, added or moved between the producer's file and the local one. */
  ghost predicate InOrder(c: Conn, f: File) {
    && c.pos <= |f.data|
    && c.local + c.InHand() + c.flight == c.pre + f.data[..c.pos]
  }

  /** One connection against its file. */
  ghost predicate Good(c: Conn, f: File) {
    && c.pos <= |f.data|
    && (c.pc == Finishing || c.Over() ==> f.released)
    && (c.Over() && !f.late ==> c.pos == |f.data|)
    && (!c.shared ==>
          && InOrder(c, f)
          && c.bufs.Keys <= {c.first}
          && (c.open <==> c.first in c.bufs)
          && (!c.open ==> c.Over() && c.flight == []))
  }

  ghost predicate Inv(s: System) {
    && (forall m :: m in s.marks || m in s.wire ==> FileOf(m) in s.files && s.files[FileOf(m)].released)
    && (forall h :: h in s.conns ==> FileOf(s.conns[h].message) in s.files)
    && (forall h :: h in s.conns ==> Good(s.conns[h], s.files[FileOf(s.conns[h].message)]))
  }

  lemma AppendedGood(c: Conn, f: File, bytes: seq<Byte>)
    requires Good(c, f)
    ensures Good(c, Appended(f, bytes))
  {
    assert (f.data + bytes)[..c.pos] == f.data[..c.pos];
  }

  lemma SentGood(c: Conn, f: File, n: nat)
    requires Good(c, f) && c.pc in {Copying, Finishing} && c.pos + n <= |f.data|
    ensures Good(Sent(c, f, n), f)
  {
    var d := Sent(c, f, n);
    if !c.shared {
      assert f.data[..d.pos] == f.data[..c.pos] + f.data[c.pos..d.pos];
      calc {
        d.local + d.InHand() + d.flight;
        c.local + c.InHand() + c.flight + f.data[c.pos..d.pos];
        c.pre + f.data[..d.pos];
      }
    }
  }

  lemma ReceivedGood(c: Conn, f: File, g: Gid, n: nat)
    requires Good(c, f) && g in c.bufs && c.bufs[g] == [] && 0 < n <= |c.flight|
    ensures Good(Received(c, g, n), f)
  {
    var d := Received(c, g, n);
    if !c.shared {
      assert g == c.first;
      assert c.flight[..n] + c.flight[n..] == c.flight;
      assert d.local + d.InHand() + d.flight == c.local + c.InHand() + c.flight;
    }
  }

  lemma StoredGood(c: Conn, f: File, g: Gid)
    requires Good(c, f) && g in c.bufs
    ensures Good(Stored(c, g), f)
  {
    var d := Stored(c, g);
    if !c.shared {
      assert g == c.first;
      assert d.local + d.InHand() + d.flight == c.local + c.InHand() + c.flight;
    }
  }

  lemma EndedGood(c: Conn, f: File, g: Gid)
    requires Good(c, f) && g in c.bufs && c.bufs[g] == [] && c.flight == [] && c.Over()
    ensures Good(c.(bufs := c.bufs - {g}, open := false), f)
  {
    var d := c.(bufs := c.bufs - {g}, open := false);
    if !c.shared {
      assert g == c.first;
      assert d.local + d.InHand() + d.flight == c.local + c.InHand() + c.flight;
    }
  }

  lemma ReleasedGood(c: Conn, f: File)
    requires Good(c, f)
    ensures Good(c, f.(released := true))
  {
  }

  /** The server moves on: to Finishing only with a mark, to Closed only at the end of the file. */
  lemma MovedGood(c: Conn, f: File, pc: Pc)
    requires Good(c, f) && (c.Over() ==> pc == Cleared)
    requires pc in {Finishing, Closed, Cleared} ==> f.released
    requires pc in {Closed, Cleared} ==> c.Over() || c.pos == |f.data|
    ensures Good(c.(pc := pc), f)
  {
    assert c.(pc := pc).InHand() == c.InHand();
  }

  lemma JoinedGood(c: Conn, f: File, g: Gid)
    requires Good(c, f)
    ensures Good(c.(bufs := c.bufs[g := []], shared := true), f)
  {
  }

  lemma ConnectedGood(message: string, pre: seq<Byte>, g: Gid, f: File)
    ensures Good(Conn(message, Copying, 0, [], pre, pre, g, map[g := []], true, false), f)
  {
  }

  lemma AppendKeeps(s: System, name: string, bytes: seq<Byte>)
    requires Inv(s) && Enabled(s, Append(name, bytes))
    ensures Inv(Next(s, Append(name, bytes)))
  {
    hide Good, FileOf;
    forall h | h in s.conns { AppendedGood(s.conns[h], s.files[FileOf(s.conns[h].message)], bytes); }
  }

  lemma ReleaseKeeps(s: System, name: string)
    requires Inv(s) && Enabled(s, Release(name))
    ensures Inv(Next(s, Release(name)))
  {
    hide Good, FileOf;
    forall h | h in s.conns { ReleasedGood(s.conns[h], s.files[FileOf(s.conns[h].message)]); }
  }

  lemma CreateKeeps(s: System, name: string)
    requires Inv(s) && Enabled(s, Create(name))
    ensures Inv(Next(s, Create(name)))
  {
    hide Good, FileOf;
  }

  lemma MarkKeeps(s: System, e: Event)
    requires Inv(s) && Enabled(s, e) && (e.Deliver? || e.Lose?)
    ensures Inv(Next(s, e))
  {
    hide Good, FileOf;
    assert forall m :: m in Next(s, e).wire ==> m in s.wire;
  }

  lemma ConnectKeeps(s: System, e: Event)
    requires Inv(s) && Enabled(s, e) && e.Connect?
    ensures Inv(Next(s, e))
  {
    hide Good, FileOf;
    ConnectedGood(e.message, e.pre, e.g, s.files[FileOf(e.message)]);
  }

  /** One connection changes, and perhaps marks go. */
  lemma ConnKeeps(s: System, h: Hid, c: Conn, marks: set<string>)
    requires Inv(s) && h in s.conns && c.message == s.conns[h].message && marks <= s.marks
    requires Good(c, s.files[FileOf(c.message)])
    ensures Inv(s.(conns := s.conns[h := c], marks := marks))
  {
    hide Good, FileOf;
  }

  lemma MarkMeansReleased(s: System, c: Conn)
    requires Inv(s) && FileOf(c.message) in s.files && MarksOf(c.message) * s.marks != {}
    ensures s.files[FileOf(c.message)].released
  {
    var m :| m in MarksOf(c.message) * s.marks;
    assert FileOf("/" + c.message) == FileOf(c.message);
  }

  lemma ServerKeeps(s: System, e: Event)
    requires Inv(s) && Enabled(s, e) && (e.Send? || e.Eof? || e.Check? || e.Clear?)
    ensures Inv(Next(s, e))
  {
    var c := s.conns[e.h];
    var f := s.files[FileOf(c.message)];
    assert c.pc in {Finishing, Closed, Cleared} ==> f.released by { Unfold(c, f); }
    ServerStep(s, e, c, f);
  }

  lemma Unfold(c: Conn, f: File)
    requires Good(c, f)
    ensures c.pos <= |f.data| && (c.pc in {Finishing, Closed, Cleared} ==> f.released)
  {
  }

  lemma ServerStep(s: System, e: Event, c: Conn, f: File)
    requires Inv(s) && Enabled(s, e) && (e.Send? || e.Eof? || e.Check? || e.Clear?)
    requires c == s.conns[e.h] && f == s.files[FileOf(c.message)] &&
             (c.pc in {Finishing, Closed, Cleared} ==> f.released)
    ensures Inv(Next(s, e))
  {
    hide Good, Inv, FileOf;
    InvGood(s, e.h);
    var t := Next(s, e);
    match e {
      case Send(_, n) => SentGood(c, f, n);
      case Eof(_) => MovedGood(c, f, t.conns[e.h].pc);
      case Check(_) =>
        if MarksOf(c.message) * s.marks != {} { MarkMeansReleased(s, c); }
        MovedGood(c, f, t.conns[e.h].pc);
      case Clear(_) => MovedGood(c, f, Cleared);
    }
    ConnKeeps(s, e.h, t.conns[e.h], t.marks);
  }

  lemma InvGood(s: System, h: Hid)
    requires Inv(s) && h in s.conns
    ensures FileOf(s.conns[h].message) in s.files && Good(s.conns[h], s.files[FileOf(s.conns[h].message)])
  {
  }

  lemma ClientKeeps(s: System, e: Event)
    requires Inv(s) && Enabled(s, e) && (e.Join? || e.Receive? || e.Store? || e.End?)
    ensures Inv(Next(s, e))
  {
    hide Good, Inv, FileOf;
    InvGood(s, e.h);
    var c := s.conns[e.h];
    var f := s.files[FileOf(c.message)];
    match e {
      case Join(_, g) => JoinedGood(c, f, g);
      case Receive(_, g, n) => ReceivedGood(c, f, g, n);
      case Store(_, g) => StoredGood(c, f, g);
      case End(_, g) => EndedGood(c, f, g);
    }
    ConnKeeps(s, e.h, Next(s, e).conns[e.h], s.marks);
  }

  lemma StepKeeps(s: System, e: Event)
    requires Inv(s) && Enabled(s, e)
    ensures Inv(Next(s, e))
  {
    hide Inv, Next;
    if e.Append? { AppendKeeps(s, e.name, e.bytes); }
    else if e.Release? { ReleaseKeeps(s, e.name); }
    else if e.Create? { CreateKeeps(s, e.name); }
    else if e.Connect? { ConnectKeeps(s, e); }
    else if e.Deliver? || e.Lose? { MarkKeeps(s, e); }
    else if e.Send? || e.Eof? || e.Check? || e.Clear? { ServerKeeps(s, e); }
    else { ClientKeeps(s, e); }
  }

  lemma {:induction false} RunKeeps(s: System, es: seq<Event>, t: System)
    requires Inv(s) && Trace(s, es, t)
    ensures Inv(t)
    decreases |es|
  {
    hide Inv, Next;
    if es != [] {
      StepKeeps(s, es[0]);
      RunKeeps(Next(s, es[0]), es[1..], t);
    }
  }

  // ---- what holds of every run ----

  lemma Reached(es: seq<Event>, s: System, h: Hid)
    requires Trace(EMPTY, es, s) && h in s.conns
    ensures FileOf(s.conns[h].message) in s.files && Good(s.conns[h], s.files[FileOf(s.conns[h].message)])
  {
    hide Good;
    RunKeeps(EMPTY, es, s);
    InvGood(s, h);
  }

  lemma HeadIsPrefix(head: seq<Byte>, rest: seq<Byte>, data: seq<Byte>, n: nat)
    requires n <= |data| && head + rest == data[..n]
    ensures head <= data
  {
    assert head == (head + rest)[..|head|];
  }

  /** With one goroutine on it, a connection never loses, repeats or moves a byte: at every
      moment what is stored, in hand and in flight is the producer's file up to where the
      server has read it, after whatever the local file held before.  So a local file that
      started empty never shows a byte that the producer did not write at that offset. */
  lemma ConsumerSeesProducer(es: seq<Event>, s: System, h: Hid)
    requires Trace(EMPTY, es, s) && h in s.conns && !s.conns[h].shared
    ensures FileOf(s.conns[h].message) in s.files
    ensures var c, data := s.conns[h], s.files[FileOf(s.conns[h].message)].data;
            && c.pos <= |data|
            && c.local + c.InHand() + c.flight == c.pre + data[..c.pos]
            && (c.pre == [] ==> c.local <= data)
  {
    Reached(es, s, h);
    var c, data := s.conns[h], s.files[FileOf(s.conns[h].message)].data;
    if c.pre == [] {
      assert c.local + c.InHand() + c.flight == c.local + (c.InHand() + c.flight);
      assert [] + data[..c.pos] == data[..c.pos];
      HeadIsPrefix(c.local, c.InHand() + c.flight, data, c.pos);
    }
  }

  /** The server closes a connection only after the whole file has gone into it, however
      many handlers stream the file and delete its marks, provided that nothing is appended
      once a handle was released; and a client that reports the end has the whole file. */
  lemma ClosedMeansComplete(es: seq<Event>, s: System, h: Hid)
    requires Trace(EMPTY, es, s) && h in s.conns && s.conns[h].Over()
    ensures FileOf(s.conns[h].message) in s.files
    ensures var c, f := s.conns[h], s.files[FileOf(s.conns[h].message)];
            && f.released
            && (!f.late ==> c.pos == |f.data|)
            && (!f.late && !c.shared && !c.open ==> c.local == c.pre + f.data)
  {
    Reached(es, s, h);
    var c, f := s.conns[h], s.files[FileOf(s.conns[h].message)];
    if !f.late && !c.shared && !c.open { assert f.data[..c.pos] == f.data; }
  }

  predicate Appends(es: seq<Event>, name: string) {
    exists k :: 0 <= k < |es| && es[k].Append? && FileOf(es[k].name) == name
  }

  /** At the moment a connection is closed everything has been sent, and after that it stays
      complete exactly as long as nothing is appended: what is appended later is missed. */
  lemma LateAppendIsMissed(before: seq<Event>, s: System, es: seq<Event>, t: System, h: Hid)
    requires Trace(EMPTY, before, s) && Enabled(s, Eof(h)) && s.conns[h].pc == Finishing
    requires Trace(Next(s, Eof(h)), es, t)
    ensures var name := FileOf(s.conns[h].message);
            && s.conns[h].pos == |s.files[name].data|
            && h in t.conns && t.conns[h].Over() && name in t.files
            && (t.conns[h].pos == |t.files[name].data| <==> !Appends(es, name))
  {
    hide FileOf;
    AfterwardsFixed(Next(s, Eof(h)), es, t, h);
  }

  lemma {:induction false} AfterwardsFixed(s: System, es: seq<Event>, t: System, h: Hid)
    requires Trace(s, es, t) && h in s.conns && s.conns[h].Over() && FileOf(s.conns[h].message) in s.files
    ensures h in t.conns && t.conns[h].Over() && t.conns[h].message == s.conns[h].message &&
            t.conns[h].pos == s.conns[h].pos
    ensures var name := FileOf(s.conns[h].message);
            name in t.files && s.files[name].data <= t.files[name].data &&
            (|t.files[name].data| == |s.files[name].data| <==> !Appends(es, name))
    decreases |es|
  {
    hide FileOf;
    if es != [] {
      var name := FileOf(s.conns[h].message);
      var u := Next(s, es[0]);
      AfterClose(s, es[0], h);
      AfterwardsFixed(u, es[1..], t, h);
      if Appends(es, name) && !Appends(es[1..], name) {
        var k :| 0 <= k < |es| && es[k].Append? && FileOf(es[k].name) == name;
        assert k > 0 ==> es[1..][k - 1] == es[k];
      }
      if Appends(es[1..], name) {
        var k :| 0 <= k < |es[1..]| && es[1..][k].Append? && FileOf(es[1..][k].name) == name;
        assert es[k + 1] == es[1..][k];
      }
    }
  }

  lemma AfterClose(s: System, e: Event, h: Hid)
    requires Enabled(s, e) && h in s.conns && s.conns[h].Over() && FileOf(s.conns[h].message) in s.files
    ensures var u, name := Next(s, e), FileOf(s.conns[h].message);
            && h in u.conns && u.conns[h].Over() && u.conns[h].message == s.conns[h].message
            && u.conns[h].pos == s.conns[h].pos && name in u.files && s.files[name].data <= u.files[name].data
            && (|u.files[name].data| == |s.files[name].data| <==> !(e.Append? && FileOf(e.name) == name))
  {
    hide FileOf;
  }

  /** A local file only grows, and so does the producer's. */
  ghost predicate Grows(s: System, t: System, h: Hid)
    requires h in s.conns && FileOf(s.conns[h].message) in s.files
  {
    && h in t.conns && t.conns[h].message == s.conns[h].message && t.conns[h].pre == s.conns[h].pre
    && s.conns[h].local <= t.conns[h].local
    && FileOf(s.conns[h].message) in t.files
    && s.files[FileOf(s.conns[h].message)].data <= t.files[FileOf(s.conns[h].message)].data
  }

  lemma StepGrows(s: System, e: Event, h: Hid)
    requires Enabled(s, e) && h in s.conns && FileOf(s.conns[h].message) in s.files
    ensures Grows(s, Next(s, e), h)
  {
    hide FileOf;
  }

  lemma {:induction false} LocalOnlyGrows(s: System, es: seq<Event>, t: System, h: Hid)
    requires Trace(s, es, t) && h in s.conns && FileOf(s.conns[h].message) in s.files
    ensures Grows(s, t, h)
    decreases |es|
  {
    hide FileOf, Enabled, Next;
    if es != [] {
      StepGrows(s, es[0], h);
      LocalOnlyGrows(Next(s, es[0]), es[1..], t, h);
    }
  }

  lemma {:induction false} Concat(s: System, es: seq<Event>, t: System, fs: seq<Event>, u: System)
    requires Trace(s, es, t) && Trace(t, fs, u)
    ensures Trace(s, es + fs, u)
    decreases |es|
  {
    hide Enabled, Next;
    if es == [] {
      assert es + fs == fs;
    } else {
      Concat(Next(s, es[0]), es[1..], t, fs, u);
      assert (es + fs)[1..] == es[1..] + fs;
    }
  }

  /** What a reader of the local file sees from one moment to a later one, if the file started
      empty: it grows, and stays a prefix of what the producer has written. */
  lemma PollsSeeProducer(es: seq<Event>, s: System, fs: seq<Event>, t: System, h: Hid)
    requires Trace(EMPTY, es, s) && Trace(s, fs, t) && h in s.conns && s.conns[h].pre == []
    requires h in t.conns && !t.conns[h].shared
    ensures FileOf(t.conns[h].message) in t.files
    ensures s.conns[h].local <= t.conns[h].local <= t.files[FileOf(t.conns[h].message)].data
  {
    hide Enabled, Next, Good, FileOf;
    Reached(es, s, h);
    LocalOnlyGrows(s, fs, t, h);
    Concat(EMPTY, es, s, fs, t);
    ConsumerSeesProducer(es + fs, t, h);
  }

  // ---- when a handler can finish ----

  /** A mark for the handler is there, or on its way. */
  predicate Expected(s: System, message: string) {
    exists m :: m in MarksOf(message) && (m in s.marks || m in s.wire)
  }

  ghost predicate Quiet(es: seq<Event>) {
    forall e :: e in es ==> !e.Release?
  }

  /** Without a new done message, a handler that waits with no mark in sight goes on waiting
      in every run: this is what happens to it when another handler deletes the mark first. */
  lemma {:induction false} Starved(s: System, es: seq<Event>, t: System, h: Hid)
    requires Trace(s, es, t) && Quiet(es)
    requires h in s.conns && s.conns[h].pc in {Copying, Checking} && !Expected(s, s.conns[h].message)
    ensures h in t.conns && t.conns[h].pc in {Copying, Checking}
    decreases |es|
  {
    if es != [] {
      StarvedStep(s, es[0], h);
      Starved(Next(s, es[0]), es[1..], t, h);
    }
  }

  lemma StarvedStep(s: System, e: Event, h: Hid)
    requires Enabled(s, e) && !e.Release?
    requires h in s.conns && s.conns[h].pc in {Copying, Checking} && !Expected(s, s.conns[h].message)
    ensures var u := Next(s, e);
            h in u.conns && u.conns[h].pc in {Copying, Checking} && !Expected(u, u.conns[h].message)
  {
    hide FileOf, MarksOf;
    var u, message := Next(s, e), s.conns[h].message;
    assert u.conns[h].message == message;
    assert forall m :: m in MarksOf(message) ==> m !in s.marks && m !in s.wire;
    assert MarksOf(message) * s.marks == {};
    if e.Deliver? { assert e.name !in MarksOf(message); }
    assert forall m :: m in MarksOf(message) ==> m !in u.marks && m !in u.wire;
  }

  ghost predicate Reaches(s: System, h: Hid, t: System) {
    exists es :: Trace(s, es, t) && Quiet(es) && h in t.conns && t.conns[h].Over()
  }

  lemma Prepend(s: System, e: Event, h: Hid, t: System)
    requires Enabled(s, e) && !e.Release? && Reaches(Next(s, e), h, t)
    ensures Reaches(s, h, t)
  {
    hide Next, Enabled;
    var es :| Trace(Next(s, e), es, t) && Quiet(es) && h in t.conns && t.conns[h].Over();
    assert ([e] + es)[1..] == es;
    assert Trace(s, [e] + es, t);
  }

  lemma NowOver(s: System, h: Hid)
    requires h in s.conns && s.conns[h].Over()
    ensures Reaches(s, h, s)
  {
    assert Trace(s, [], s) && Quiet([]);
  }

  /** What the handler needs of its file. */
  predicate Fits(s: System, h: Hid) {
    h in s.conns && FileOf(s.conns[h].message) in s.files &&
    s.conns[h].pos <= |s.files[FileOf(s.conns[h].message)].data|
  }

  lemma FromFinishing(s: System, h: Hid) returns (t: System)
    requires Fits(s, h) && s.conns[h].pc == Finishing
    ensures Reaches(s, h, t)
    decreases |s.files[FileOf(s.conns[h].message)].data| - s.conns[h].pos
  {
    hide FileOf;
    var rest := |s.files[FileOf(s.conns[h].message)].data| - s.conns[h].pos;
    if rest > 0 {
      t := FromFinishing(Next(s, Send(h, rest)), h);
      Prepend(s, Send(h, rest), h, t);
    } else {
      t := Next(s, Eof(h));
      NowOver(t, h);
      Prepend(s, Eof(h), h, t);
    }
  }

  lemma FromChecking(s: System, h: Hid) returns (t: System)
    requires Fits(s, h) && s.conns[h].pc == Checking && MarksOf(s.conns[h].message) * s.marks != {}
    ensures Reaches(s, h, t)
  {
    hide FileOf, Reaches;
    t := FromFinishing(Next(s, Check(h)), h);
    Prepend(s, Check(h), h, t);
  }

  lemma FromCopying(s: System, h: Hid) returns (t: System)
    requires Fits(s, h) && s.conns[h].pc == Copying && MarksOf(s.conns[h].message) * s.marks != {}
    ensures Reaches(s, h, t)
    decreases |s.files[FileOf(s.conns[h].message)].data| - s.conns[h].pos
  {
    hide FileOf, Reaches, MarksOf;
    var rest := |s.files[FileOf(s.conns[h].message)].data| - s.conns[h].pos;
    if rest > 0 {
      t := FromCopying(Next(s, Send(h, rest)), h);
      Prepend(s, Send(h, rest), h, t);
    } else {
      t := FromChecking(Next(s, Eof(h)), h);
      Prepend(s, Eof(h), h, t);
    }
  }

  lemma FromMark(s: System, h: Hid) returns (t: System)
    requires Fits(s, h) && s.conns[h].pc in {Copying, Checking} && MarksOf(s.conns[h].message) * s.marks != {}
    ensures Reaches(s, h, t)
  {
    hide FileOf, Reaches, MarksOf;
    if s.conns[h].pc == Copying { t := FromCopying(s, h); } else { t := FromChecking(s, h); }
  }

  /** A waiting handler can still close its connection without a new done message if and
      only if a mark under one of its two names is set or on its way. */
  lemma CanFinish(es: seq<Event>, s: System, h: Hid)
    requires Trace(EMPTY, es, s) && h in s.conns && s.conns[h].pc in {Copying, Checking}
    ensures (exists t :: Reaches(s, h, t)) <==> Expected(s, s.conns[h].message)
  {
    hide FileOf, Good;
    Reached(es, s, h);
    Unfold(s.conns[h], s.files[FileOf(s.conns[h].message)]);
    if Expected(s, s.conns[h].message) {
      var m :| m in MarksOf(s.conns[h].message) && (m in s.marks || m in s.wire);
      var t: System;
      if m in s.marks {
        assert m in MarksOf(s.conns[h].message) * s.marks;
        t := FromMark(s, h);
      } else {
        var u := Next(s, Deliver(m));
        assert m in MarksOf(s.conns[h].message) * u.marks;
        t := FromMark(u, h);
        Prepend(s, Deliver(m), h, t);
      }
    } else if t :| Reaches(s, h, t) {
      var run :| Trace(s, run, t) && Quiet(run) && h in t.conns && t.conns[h].Over();
      Starved(s, run, t, h);
      assert false;
    }
  }

  // ---- two goroutines on one connection ----

  ghost predicate Reach(s: System, t: System) { exists es :: Trace(s, es, t) }

  lemma One(s: System, e: Event)
    requires Enabled(s, e)
    ensures Reach(s, Next(s, e))
  {
    hide Enabled, Next;
    assert [e][1..] == [];
    assert Trace(Next(s, e), [], Next(s, e));
    assert Trace(s, [e], Next(s, e));
  }

  lemma Then(s: System, t: System, u: System)
    requires Reach(s, t) && Reach(t, u)
    ensures Reach(s, u)
  {
    var es :| Trace(s, es, t);
    var fs :| Trace(t, fs, u);
    Concat(s, es, t, fs, u);
  }

  lemma Stay(s: System)
    ensures Reach(s, s)
  {
    assert Trace(s, [], s);
  }

  /** Two goroutines on a connection that is open and not closed by the server, the second one
      idle so far: what the first has done is still in order. */
  ghost predicate Twin(s: System, h: Hid, g: Gid) {
    && h in s.conns && FileOf(s.conns[h].message) in s.files
    && var c, f := s.conns[h], s.files[FileOf(s.conns[h].message)];
       c.open && !c.Over() && g != c.first && g in c.bufs && c.first in c.bufs && c.bufs[g] == [] && InOrder(c, f)
  }

  /** The server goes on to where it can send. */
  lemma ToSending(s: System, h: Hid, g: Gid) returns (t: System)
    requires Twin(s, h, g)
    ensures Reach(s, t) && Twin(t, h, g) && t.conns[h].pc in {Copying, Finishing}
    ensures Same(s, t, h)
  {
    if s.conns[h].pc == Checking {
      t := Next(s, Check(h));
      One(s, Check(h));
      assert t.conns[h].InHand() == s.conns[h].InHand();
    } else {
      t := s;
      Stay(s);
    }
  }

  ghost predicate Same(s: System, t: System, h: Hid) {
    h in s.conns && h in t.conns && t.conns[h].message == s.conns[h].message && t.conns[h].pre == s.conns[h].pre
  }

  /** It sends all there is. */
  lemma ToEnd(s: System, h: Hid, g: Gid) returns (t: System)
    requires Twin(s, h, g) && s.conns[h].pc in {Copying, Finishing}
    ensures Reach(s, t) && Twin(t, h, g) && t.conns[h].pc in {Copying, Finishing} && Same(s, t, h)
    ensures t.conns[h].pos == |t.files[FileOf(t.conns[h].message)].data|
  {
    hide FileOf;
    var c, f := s.conns[h], s.files[FileOf(s.conns[h].message)];
    var rest := |f.data| - c.pos;
    if rest > 0 {
      t := Next(s, Send(h, rest));
      One(s, Send(h, rest));
      SentInOrder(c, f, rest);
    } else {
      t := s;
      Stay(s);
    }
  }

  lemma SentInOrder(c: Conn, f: File, n: nat)
    requires InOrder(c, f) && c.pos + n <= |f.data|
    ensures InOrder(Sent(c, f, n), f)
  {
    var d := Sent(c, f, n);
    assert f.data[..d.pos] == f.data[..c.pos] + f.data[c.pos..d.pos];
    assert d.local + d.InHand() + d.flight == c.local + c.InHand() + c.flight + f.data[c.pos..d.pos];
  }

  /** The first goroutine stores what it has in hand. */
  lemma ToStored(s: System, h: Hid, g: Gid) returns (t: System)
    requires Twin(s, h, g)
    ensures Reach(s, t) && Twin(t, h, g) && Same(s, t, h) && t.conns[h].InHand() == []
    ensures t.conns[h].pc == s.conns[h].pc && t.conns[h].pos == s.conns[h].pos && t.conns[h].flight == s.conns[h].flight
    ensures t.files == s.files
  {
    hide FileOf;
    var c := s.conns[h];
    if c.InHand() != [] {
      t := Next(s, Store(h, c.first));
      One(s, Store(h, c.first));
      var d := t.conns[h];
      assert d.local + d.InHand() + d.flight == c.local + c.InHand() + c.flight;
    } else {
      t := s;
      Stay(s);
    }
  }

  /** It reads what is in flight. */
  lemma ToReceived(s: System, h: Hid, g: Gid) returns (t: System)
    requires Twin(s, h, g) && s.conns[h].InHand() == []
    ensures Reach(s, t) && Twin(t, h, g) && Same(s, t, h) && t.conns[h].flight == []
    ensures t.conns[h].pc == s.conns[h].pc && t.conns[h].pos == s.conns[h].pos && t.files == s.files
  {
    hide FileOf;
    var c := s.conns[h];
    if c.flight != [] {
      t := Next(s, Receive(h, c.first, |c.flight|));
      One(s, Receive(h, c.first, |c.flight|));
      var d := t.conns[h];
      assert d.local + d.InHand() + d.flight == c.local + c.InHand() + c.flight;
    } else {
      t := s;
      Stay(s);
    }
  }

  /** Everything is stored: the local file is what it was before and the producer's file. */
  lemma ToDrained(s: System, h: Hid, g: Gid) returns (t: System)
    requires Twin(s, h, g)
    ensures Reach(s, t) && Twin(t, h, g) && Same(s, t, h) && t.conns[h].pc in {Copying, Finishing}
    ensures t.conns[h].InHand() == [] && t.conns[h].flight == []
    ensures t.conns[h].pos == |t.files[FileOf(t.conns[h].message)].data|
  {
    hide FileOf, Twin, Reach;
    var s1 := ToSending(s, h, g);
    var s2 := ToEnd(s1, h, g);
    var s3 := ToStored(s2, h, g);
    var s4 := ToReceived(s3, h, g);
    t := ToStored(s4, h, g);
    Then(s, s1, s2);
    Then(s, s2, s3);
    Then(s, s3, s4);
    Then(s, s4, t);
  }

  /** Two more bytes are written, and sent. */
  lemma ToTwoBytes(s: System, h: Hid, g: Gid) returns (t: System)
    requires Twin(s, h, g) && s.conns[h].pc in {Copying, Finishing} && s.conns[h].InHand() == [] &&
             s.conns[h].flight == []
    requires s.conns[h].pos == |s.files[FileOf(s.conns[h].message)].data|
    ensures Reach(s, t) && Twin(t, h, g) && Same(s, t, h) && t.conns[h].InHand() == [] && t.conns[h].flight == [0, 1]
    ensures t.conns[h].local == s.conns[h].local && t.conns[h].pos == |t.files[FileOf(t.conns[h].message)].data|
  {
    hide FileOf;
    var c := s.conns[h];
    var name := FileOf(c.message);
    var f := s.files[name];
    var more: seq<Byte> := [0, 1];
    var s1 := Next(s, Append(c.message, more));
    One(s, Append(c.message, more));
    assert s1.files[name].data[..c.pos] == f.data[..c.pos];
    t := Next(s1, Send(h, 2));
    One(s1, Send(h, 2));
    Then(s, s1, t);
    SentInOrder(c, s1.files[name], 2);
    assert t.conns[h].flight == more;
  }

  /** Whether a client's local file is what it held before and a prefix of the producer's. */
  ghost predicate Faithful(s: System, h: Hid) {
    && h in s.conns && FileOf(s.conns[h].message) in s.files
    && s.conns[h].local <= s.conns[h].pre + s.files[FileOf(s.conns[h].message)].data
  }

  /** Each goroutine reads one of two bytes, and the later reader writes first. */
  lemma Swapped(s: System, h: Hid, g: Gid) returns (t: System)
    requires Twin(s, h, g) && s.conns[h].InHand() == [] && s.conns[h].flight == [0, 1]
    requires s.conns[h].pos == |s.files[FileOf(s.conns[h].message)].data|
    ensures Reach(s, t) && !Faithful(t, h)
  {
    hide FileOf;
    var c := s.conns[h];
    var a, b := c.first, g;
    var c1 := Received(c, a, 1);
    var c2 := Received(c1, b, 1);
    var c3 := Stored(c2, b);
    var c4 := Stored(c3, a);
    var s1 := s.(conns := s.conns[h := c1]);
    var s2 := s1.(conns := s1.conns[h := c2]);
    var s3 := s2.(conns := s2.conns[h := c3]);
    t := s3.(conns := s3.conns[h := c4]);
    Four(s, Receive(h, a, 1), Receive(h, b, 1), Store(h, b), Store(h, a), s1, s2, s3, t);
    SwappedBytes(c, s.files[FileOf(c.message)].data, c4);
  }

  lemma SwappedBytes(c: Conn, data: seq<Byte>, d: Conn)
    requires c.local + [] + [0, 1] == c.pre + data[..|data|] && d.pre == c.pre && d.local == c.local + [1] + [0]
    ensures !(d.local <= d.pre + data)
  {
    var all := c.pre + data;
    assert data[..|data|] == data && c.local + [] + [0, 1] == c.local + [0, 1];
    assert all[|c.local|] == 0 && d.local[|c.local|] == 1;
  }

  /** From every reachable state of a connection that is open and that the server has not
      closed, a second goroutine leads, in some run, to a local file with bytes in the wrong
      order. */
  lemma SecondGoroutineReorders(es: seq<Event>, s: System, h: Hid, g: Gid) returns (t: System)
    requires Trace(EMPTY, es, s) && h in s.conns && s.conns[h].open && !s.conns[h].Over() && !s.conns[h].shared
    requires g != s.conns[h].first
    ensures Enabled(s, Join(h, g)) && Reach(Next(s, Join(h, g)), t) && !Faithful(t, h)
  {
    hide FileOf, Reach, Faithful;
    Reached(es, s, h);
    var u := Next(s, Join(h, g));
    assert u.conns[h].InHand() == s.conns[h].InHand();
    assert Twin(u, h, g);
    var s1 := ToDrained(u, h, g);
    var s2 := ToTwoBytes(s1, h, g);
    t := Swapped(s2, h, g);
    Then(u, s1, s2);
    Then(u, s2, t);
  }

  predicate Joins(es: seq<Event>, h: Hid) { exists e :: e in es && e.Join? && e.h == h }

  lemma {:induction false} StaysAlone(s: System, es: seq<Event>, t: System, h: Hid)
    requires Trace(s, es, t) && h in s.conns && !s.conns[h].shared && !Joins(es, h)
    ensures h in t.conns && !t.conns[h].shared
    decreases |es|
  {
    if es != [] {
      assert es[0] in es && forall e :: e in es[1..] ==> e in es;
      AloneStep(s, es[0], h);
      StaysAlone(Next(s, es[0]), es[1..], t, h);
    }
  }

  lemma AloneStep(s: System, e: Event, h: Hid)
    requires Enabled(s, e) && h in s.conns && !s.conns[h].shared && !(e.Join? && e.h == h)
    ensures h in Next(s, e).conns && !Next(s, e).conns[h].shared
  {
    hide FileOf;
  }

  /** So the order is kept in every run if and only if no second goroutine joins: it is kept
      in all runs in which none does, and it is not in some run after one has. */
  lemma OrderKept(es: seq<Event>, s: System, h: Hid, g: Gid)
    requires Trace(EMPTY, es, s) && h in s.conns && s.conns[h].open && !s.conns[h].Over() && !s.conns[h].shared
    requires g != s.conns[h].first
    ensures forall fs, t :: Trace(s, fs, t) && !Joins(fs, h) ==> Faithful(t, h)
    ensures Enabled(s, Join(h, g)) && exists t :: Reach(Next(s, Join(h, g)), t) && !Faithful(t, h)
  {
    forall fs, t | Trace(s, fs, t) && !Joins(fs, h) ensures Faithful(t, h) {
      KeptAlone(es, s, fs, t, h);
    }
    var t := SecondGoroutineReorders(es, s, h, g);
  }

  lemma KeptAlone(es: seq<Event>, s: System, fs: seq<Event>, t: System, h: Hid)
    requires Trace(EMPTY, es, s) && h in s.conns && !s.conns[h].shared && Trace(s, fs, t) && !Joins(fs, h)
    ensures Faithful(t, h)
  {
    hide FileOf, Enabled, Next;
    StaysAlone(s, fs, t, h);
    Concat(EMPTY, es, s, fs, t);
    ConsumerSeesProducer(es + fs, t, h);
    var c, data := t.conns[h], t.files[FileOf(t.conns[h].message)].data;
    assert c.pre + data[..c.pos] == (c.pre + data)[..|c.pre| + c.pos];
    assert c.local + c.InHand() + c.flight == c.local + (c.InHand() + c.flight);
    HeadIsPrefix(c.local, c.InHand() + c.flight, c.pre + data, |c.pre| + c.pos);
  }

  lemma Four(s: System, e1: Event, e2: Event, e3: Event, e4: Event, s1: System, s2: System, s3: System, t: System)
    requires Enabled(s, e1) && s1 == Next(s, e1) && Enabled(s1, e2) && s2 == Next(s1, e2)
    requires Enabled(s2, e3) && s3 == Next(s2, e3) && Enabled(s3, e4) && t == Next(s3, e4)
    ensures Trace(s, [e1, e2, e3, e4], t)
  {
    hide Enabled, Next;
    assert [e1, e2, e3, e4][1..] == [e2, e3, e4] && [e2, e3, e4][1..] == [e3, e4];
    assert [e3, e4][1..] == [e4] && [e4][1..] == [];
    assert Trace(t, [], t);
    assert Trace(s3, [e4], t);
    assert Trace(s2, [e3, e4], t);
    assert Trace(s1, [e2, e3, e4], t);
  }
}
