/** f3.cc: do_readdir, which fills one reply from a directory stream, and the sequence of such
    replies by which the kernel reads a directory. */
module Readdir {
  import opened Options
  import opened Storage
  import opened LittleEndian
  import opened Dirent

  /** A struct dirent as readdir returns it; off is the position after it. */
  datatype Item = Item(ino: nat, off: nat, kind: nat, name: seq<Byte>)

  /** What do_lookup fills in for a name. */
  datatype Found = Found(out: seq<Byte>, ino: nat, mode: nat)

  /** An unchanging directory, read with readdir or with readdirplus; a name that is not in
      found is one whose lookup fails, and readdir itself fails at the positions in broken. */
  datatype Dir = Dir(items: seq<Item>, plus: bool, found: map<seq<Byte>, Found>, broken: set<nat>)

  /** Positions are distinct, and 0 is the start; lookups fill in all of fuse_entry_out. */
  ghost predicate Proper(d: Dir) {
    && (forall a, b :: 0 <= a < b < |d.items| ==> d.items[a].off != d.items[b].off)
    && (forall a :: 0 <= a < |d.items| ==> d.items[a].off != 0)
    && (forall n :: n in d.found ==> |d.found[n].out| == ENTRY_OUT)
  }

  /** is_dot_or_dotdot */
  predicate Dot(name: seq<Byte>) { name == [46] || name == [46, 46] }

  /** (st_mode & S_IFMT) >> 12 */
  function Kind(mode: nat): nat { mode / 4096 % 16 }

  /** The entry for an item, unless its lookup fails. */
  function Made(d: Dir, item: Item): Option<Entry> {
    if !d.plus then Some(Entry([], item.ino, item.off, Kind(item.kind * 4096), item.name))
    else if item.name in d.found then
      var f := d.found[item.name];
      Some(Entry(f.out, f.ino, item.off, Kind(f.mode), item.name))
    else None
  }

  /** Where the stream is after seekdir to c. */
  function Seek(items: seq<Item>, c: nat): (p: nat)
    ensures p <= |items|
  {
    if c == 0 || items == [] then 0 else if items[|items| - 1].off == c then |items| else Seek(items[..|items| - 1], c)
  }

  predicate Cookie(items: seq<Item>, c: nat) { c == 0 || exists k :: 0 <= k < |items| && items[k].off == c }

  /** seekdir to the position after an item gets there. */
  lemma {:induction false} SeekBack(d: Dir, k: nat)
    requires Proper(d) && k < |d.items|
    ensures Seek(d.items, d.items[k].off) == k + 1
    decreases |d.items|
  {
    var n := |d.items| - 1;
    if k < n {
      var e := d.(items := d.items[..n]);
      assert e.items[k] == d.items[k];
      SeekBack(e, k);
    }
  }

  /** What one reply of at most rem bytes holds, from stream position i on. */
  function Page(d: Dir, i: nat, rem: nat): seq<Entry>
    requires i <= |d.items|
    decreases |d.items| - i
  {
    if i == |d.items| || i in d.broken then []
    else if Dot(d.items[i].name) then Page(d, i + 1, rem)
    else
      match Made(d, d.items[i])
      case None => []
      case Some(e) => if |Record(e)| > rem then [] else [e] + Page(d, i + 1, rem - |Record(e)|)
  }

  /** The next entry cannot be read, or has a lookup that fails. */
  predicate Blocked(d: Dir, i: nat)
    requires i <= |d.items|
    decreases |d.items| - i
  {
    || i in d.broken
    || (i < |d.items| && if Dot(d.items[i].name) then Blocked(d, i + 1) else Made(d, d.items[i]) == None)
  }

  /** Everything there is to read from position i on, up to where something fails. */
  function All(d: Dir, i: nat): seq<Entry>
    requires i <= |d.items|
    decreases |d.items| - i
  {
    if i == |d.items| || i in d.broken then []
    else if Dot(d.items[i].name) then All(d, i + 1)
    else match Made(d, d.items[i]) case None => [] case Some(e) => [e] + All(d, i + 1)
  }

  /** The reply to a readdir request, and its buffer. */
  datatype Reply = Err | Ok(bytes: seq<Byte>)

  lemma NoRecords()
    ensures Records([]) == []
  {
  }

  lemma Stored(buf: seq<Byte>, p: nat, got: seq<Entry>, e: Entry)
    requires p + |Record(e)| <= |buf| && buf[..p] == Records(got)
    ensures Paste(buf, p, Record(e))[..p + |Record(e)|] == Records(got + [e])
  {
    RecordsSnoc(got, e);
  }

  lemma Skip(d: Dir, start: nat, size: nat, got: seq<Entry>, i: nat, rem: nat)
    requires start <= |d.items| && i < |d.items| && i !in d.broken && Dot(d.items[i].name) &&
             Progress(d, start, size, got, i, rem, true, false)
    ensures Progress(d, start, size, got, i + 1, rem, true, false)
  {
  }

  lemma Bad(d: Dir, start: nat, size: nat, got: seq<Entry>, i: nat, rem: nat)
    requires start <= |d.items| && i < |d.items| && i !in d.broken && !Dot(d.items[i].name) &&
             Made(d, d.items[i]) == None
    requires Progress(d, start, size, got, i, rem, true, false)
    ensures Progress(d, start, size, got, i + 1, rem, false, true)
  {
  }

  lemma Broken(d: Dir, start: nat, size: nat, got: seq<Entry>, i: nat, rem: nat)
    requires start <= |d.items| && i <= |d.items| && i in d.broken && Progress(d, start, size, got, i, rem, true, false)
    ensures Progress(d, start, size, got, i, rem, false, true)
  {
  }

  lemma Full(d: Dir, start: nat, size: nat, got: seq<Entry>, i: nat, rem: nat, e: Entry)
    requires start <= |d.items| && i < |d.items| && i !in d.broken && !Dot(d.items[i].name) &&
             Made(d, d.items[i]) == Some(e)
    requires |Record(e)| > rem && Progress(d, start, size, got, i, rem, true, false)
    ensures Progress(d, start, size, got, i + 1, rem, false, false)
  {
  }

  lemma Fit(d: Dir, start: nat, size: nat, got: seq<Entry>, i: nat, rem: nat, e: Entry)
    requires start <= |d.items| && i < |d.items| && i !in d.broken && !Dot(d.items[i].name) &&
             Made(d, d.items[i]) == Some(e)
    requires |Record(e)| <= rem <= size && Progress(d, start, size, got, i, rem, true, false)
    ensures Progress(d, start, size, got + [e], i + 1, rem - |Record(e)|, true, false)
  {
    hide Record, Made, Dot;
    assert got + ([e] + Page(d, i + 1, rem - |Record(e)|)) == got + [e] + Page(d, i + 1, rem - |Record(e)|);
  }

  lemma Done(d: Dir, start: nat, size: nat, got: seq<Entry>, i: nat, rem: nat, more: bool, err: bool)
    requires start <= |d.items| && i <= |d.items| && Progress(d, start, size, got, i, rem, more, err)
    requires !more || (i == |d.items| && i !in d.broken)
    ensures Page(d, start, size) == got && Blocked(d, start) == (err && rem == size)
  {
  }

  /** One item of the loop of do_readdir, with rem bytes left of the buffer from p on: n bytes
      are stored, and the lookup of an entry that is not is given back: h are held. */
  method AddItem(d: Dir, buf: array<Byte>, item: Item, p: nat, rem: nat, ghost start: nat, ghost i: nat,
                 ghost got: seq<Entry>)
    returns (n: nat, more: bool, err: bool, h: int, ghost all: seq<Entry>)
    requires p + rem == buf.Length && buf[..p] == Records(got)
    requires start <= |d.items| && i < |d.items| && i !in d.broken && item == d.items[i]
    requires Progress(d, start, buf.Length, got, i, rem, true, false)
    modifies buf
    ensures n <= rem && buf[..p + n] == Records(all) && |all| == |got| + if n > 0 then 1 else 0
    ensures h == if d.plus then |all| - |got| else 0
    ensures Progress(d, start, buf.Length, all, i + 1, rem - n, more, err)
  {
    hide Record, Records, Made, Page, Blocked, Paste, Progress;
    n, more, err, h, all := 0, true, false, 0, got;
    if Dot(item.name) {
      Skip(d, start, buf.Length, got, i, rem);
      return;
    }
    var made := Made(d, item);
    if made == None {
      Bad(d, start, buf.Length, got, i, rem);
      return 0, false, true, 0, got;
    }
    var e := made.value;
    if d.plus { h := h + 1; }
    ghost var was := buf[..];
    assert was[..p] == buf[..p];
    var entsize := AddDirentry(buf, p, rem, e);
    if entsize > rem {
      Full(d, start, buf.Length, got, i, rem, e);
      assert buf[..p] == buf[..][..p];
      if d.plus { h := h - 1; }
      return 0, false, false, h, got;
    }
    Fit(d, start, buf.Length, got, i, rem, e);
    Stored(was, p, got, e);
    RecordNotEmpty(e);
    assert buf[..p + entsize] == buf[..][..p + entsize];
    return entsize, true, false, h, got + [e];
  }

  lemma RecordNotEmpty(e: Entry)
    ensures |Record(e)| > 0
  {
  }

  /** struct DirHandle with its DIR stream. */
  class DirHandle {
    const dir: Dir
    var pos: nat          // of the stream
    var offset: nat       // d->offset

    /** The recorded offset is where the stream is. */
    ghost predicate Valid()
      reads this
    {
      Proper(dir) && pos <= |dir.items| && Cookie(dir.items, offset) && Seek(dir.items, offset) == pos
    }

    constructor (d: Dir)
      requires Proper(d)
      ensures Valid() && dir == d
    {
      dir, pos, offset := d, 0, 0;
    }

    /** readdir(3), and d->offset = entry->d_off. */
    method Read() returns (item: Item)
      requires Valid() && pos < |dir.items|
      modifies this
      ensures Valid() && pos == old(pos) + 1 && item == dir.items[old(pos)]
    {
      item := dir.items[pos];
      SeekBack(dir, pos);
      offset, pos := item.off, pos + 1;
    }

    /** do_readdir.  Whatever the handle was last used for, the reply is that for the offset
        asked for, if there is memory for it; and the lookups still held are those of the
        entries in it. */
    method DoReaddir(size: nat, from: nat, memory: bool) returns (reply: Reply, held: int)
      requires Valid() && Cookie(dir.items, from)
      modifies this
      ensures Valid()
      ensures !memory ==> reply == Err && held == 0
      ensures memory ==>
              reply == if Blocked(dir, Seek(dir.items, from)) then Err
                       else Ok(Records(Page(dir, Seek(dir.items, from), size)))
      ensures reply.Ok? ==> |reply.bytes| <= size
      ensures memory ==> held == if dir.plus then |Page(dir, Seek(dir.items, from), size)| else 0
    {
      hide Record, Records, Seek, Made, Page, Blocked, Paste, Proper, Cookie;
      if !memory { return Err, 0; }
      var buf := new Byte[size];
      var err := false;
      var p: nat, rem: nat := 0, size;
      held := 0;
      if from != offset {
        pos, offset := Seek(dir.items, from), from;
      }
      ghost var start := pos;
      ghost var got: seq<Entry> := [];
      NoRecords();
      var more := true;
      while more && pos < |dir.items|
        invariant Valid() && p + rem == size && fresh(buf) && buf.Length == size
        invariant buf[..p] == Records(got)
        invariant Progress(dir, start, size, got, pos, rem, more, err)
        invariant held == if dir.plus then |got| else 0
        decreases more, |dir.items| - pos
      {
        ghost var i := pos;
        if pos in dir.broken {
          Broken(dir, start, size, got, i, rem);
          err, more := true, false;
          break;
        }
        var item := Read();
        var n, h;
        n, more, err, h, got := AddItem(dir, buf, item, p, rem, start, i, got);
        p, rem, held := p + n, rem - n, held + h;
      }
      if more && pos in dir.broken {
        Broken(dir, start, size, got, pos, rem);
        err, more := true, false;
      }
      Done(dir, start, size, got, pos, rem, more, err);
      reply := if err && rem == size then Err else Ok(buf[..p]);
    }
  }

  /** Where the loop of do_readdir is: it has stored got, and unless it is over, what it will
      add to it is the page from here. */
  ghost predicate Progress(d: Dir, start: nat, size: nat, got: seq<Entry>, i: nat, rem: nat, more: bool, err: bool)
    requires start <= |d.items| && i <= |d.items|
  {
    && (rem == size <==> got == [])
    && Page(d, start, size) == (if more then got + Page(d, i, rem) else got)
    && (got == [] && more ==> Blocked(d, start) == Blocked(d, i))
    && (got == [] && !more ==> Blocked(d, start) == err)
    && (got != [] ==> !Blocked(d, start))
    && (err ==> !more)
  }

  // ---- reading a directory page by page ----

  function Last(es: seq<Entry>): Entry
    requires es != []
  {
    es[|es| - 1]
  }

  /** Where the kernel goes on after a reply: at the offset of the last entry it was given. */
  function After(page: seq<Entry>, from: nat): nat { if page == [] then from else Last(page).off }

  lemma MadeOff(d: Dir, item: Item)
    ensures Made(d, item).Some? ==> Made(d, item).value.off == item.off && Made(d, item).value.name == item.name
  {
  }

  /** What is left after a page is what was there without it, though the stream itself has
      moved past an entry that did not fit. */
  lemma {:induction false} PageThenRest(d: Dir, i: nat, rem: nat)
    requires Proper(d) && i <= |d.items|
    ensures var page := Page(d, i, rem);
            page != [] ==> Cookie(d.items, Last(page).off) && page + All(d, Seek(d.items, Last(page).off)) == All(d, i)
    decreases |d.items| - i
  {
    hide Record, Seek, Made, Proper, Dot;
    if i in d.broken { return; }
    if i < |d.items| && Dot(d.items[i].name) {
      PageThenRest(d, i + 1, rem);
    } else if i < |d.items| && Made(d, d.items[i]).Some? {
      var e := Made(d, d.items[i]).value;
      MadeOff(d, d.items[i]);
      if |Record(e)| <= rem {
        var tail := Page(d, i + 1, rem - |Record(e)|);
        PageThenRest(d, i + 1, rem - |Record(e)|);
        SeekBack(d, i);
        if tail != [] {
          var rest := All(d, Seek(d.items, Last(tail).off));
          assert ([e] + tail) + rest == [e] + (tail + rest);
          assert Last([e] + tail) == Last(tail);
        } else {
          assert [e] + tail == [e];
        }
      }
    }
  }

  /** All that a sequence of requests of these sizes is given. */
  function Serve(d: Dir, from: nat, sizes: seq<nat>): seq<Entry>
    decreases |sizes|
  {
    if sizes == [] then []
    else
      var page := Page(d, Seek(d.items, from), sizes[0]);
      page + Serve(d, After(page, from), sizes[1..])
  }

  function Ended(d: Dir, from: nat, sizes: seq<nat>): nat
    decreases |sizes|
  {
    if sizes == [] then from else Ended(d, After(Page(d, Seek(d.items, from), sizes[0]), from), sizes[1..])
  }

  /** Whatever the sizes, the pages one after the other are the entries of the directory in
      order, none left out and none twice, up to where the last one ends. */
  lemma {:induction false} ServedInOrder(d: Dir, from: nat, sizes: seq<nat>)
    requires Proper(d) && Cookie(d.items, from)
    ensures Serve(d, from, sizes) + All(d, Seek(d.items, Ended(d, from, sizes))) == All(d, Seek(d.items, from))
    decreases |sizes|
  {
    hide Seek, Page, All, Proper, Cookie;
    if sizes != [] {
      var i := Seek(d.items, from);
      var page := Page(d, i, sizes[0]);
      PageThenRest(d, i, sizes[0]);
      var next := After(page, from);
      ServedInOrder(d, next, sizes[1..]);
      var rest := All(d, Seek(d.items, Ended(d, next, sizes[1..])));
      assert (page + Serve(d, next, sizes[1..])) + rest == page + (Serve(d, next, sizes[1..]) + rest);
    }
  }

  /** Each request has room for the entry that comes next, if there is one. */
  predicate RoomForNext(d: Dir, from: nat, sizes: seq<nat>)
    decreases |sizes|
  {
    sizes == [] ||
    var i := Seek(d.items, from);
    && (All(d, i) != [] ==> |Record(All(d, i)[0])| <= sizes[0])
    && RoomForNext(d, After(Page(d, i, sizes[0]), from), sizes[1..])
  }

  /** A page is empty only at the end, or when the next entry alone is too large for it. */
  lemma {:induction false} PageMoves(d: Dir, i: nat, rem: nat)
    requires i <= |d.items|
    ensures Page(d, i, rem) == [] <==> All(d, i) == [] || |Record(All(d, i)[0])| > rem
    decreases |d.items| - i
  {
    hide Record, Made, Dot;
    if i in d.broken { return; }
    if i < |d.items| && Dot(d.items[i].name) { PageMoves(d, i + 1, rem); }
  }

  /** With room for the next entry in every request, as many requests as there are entries
      give the whole directory. */
  lemma {:induction false} ServedAll(d: Dir, from: nat, sizes: seq<nat>)
    requires Proper(d) && Cookie(d.items, from) && RoomForNext(d, from, sizes)
    requires |sizes| >= |All(d, Seek(d.items, from))|
    ensures Serve(d, from, sizes) == All(d, Seek(d.items, from))
    decreases |sizes|
  {
    hide Seek, Page, All, Proper, Cookie, Record;
    if sizes != [] {
      var i := Seek(d.items, from);
      var page := Page(d, i, sizes[0]);
      PageThenRest(d, i, sizes[0]);
      PageMoves(d, i, sizes[0]);
      ServedAll(d, After(page, from), sizes[1..]);
    }
  }

  function NonDots(items: seq<Item>): seq<Item> {
    if items == [] then [] else if Dot(items[0].name) then NonDots(items[1..]) else [items[0]] + NonDots(items[1..])
  }

  /** When no lookup fails, that is one entry for each item except . and .., in order. */
  lemma {:induction false} AllAreThere(d: Dir, i: nat)
    requires i <= |d.items| && (forall k :: i <= k <= |d.items| ==> k !in d.broken)
    requires forall k :: i <= k < |d.items| && !Dot(d.items[k].name) ==> Made(d, d.items[k]).Some?
    ensures var items := NonDots(d.items[i..]);
            && |All(d, i)| == |items|
            && (forall k :: 0 <= k < |items| ==> Made(d, items[k]) == Some(All(d, i)[k]))
    decreases |d.items| - i
  {
    hide Made, Dot;
    if i < |d.items| {
      AllAreThere(d, i + 1);
      assert d.items[i..][1..] == d.items[i + 1..];
    }
  }

  /** Fields of the underlying directory that fit their places in the reply. */
  ghost predicate Small(d: Dir) {
    && (forall k :: 0 <= k < |d.items| ==>
          d.items[k].ino < Pow256(8) && d.items[k].off < Pow256(8) && |d.items[k].name| < Pow256(4))
    && (forall n :: n in d.found ==> d.found[n].ino < Pow256(8))
  }

  function Prefix(d: Dir): nat { if d.plus then ENTRY_OUT else 0 }

  lemma MadeFields(d: Dir, k: nat)
    requires Proper(d) && Small(d) && k < |d.items| && Made(d, d.items[k]).Some?
    ensures Fields(Prefix(d), Made(d, d.items[k]).value)
  {
    assert Pow256(4) == 256 * Pow256(3) && Pow256(3) == 256 * Pow256(2);
  }

  lemma {:induction false} PageFields(d: Dir, i: nat, rem: nat)
    requires Proper(d) && Small(d) && i <= |d.items|
    ensures forall k :: 0 <= k < |Page(d, i, rem)| ==> Fields(Prefix(d), Page(d, i, rem)[k])
    decreases |d.items| - i
  {
    hide Record, Made, Dot, Proper, Small, Fields;
    if i < |d.items| && i !in d.broken {
      if Dot(d.items[i].name) {
        PageFields(d, i + 1, rem);
      } else if Made(d, d.items[i]).Some? {
        MadeFields(d, i);
        var e := Made(d, d.items[i]).value;
        if |Record(e)| <= rem { PageFields(d, i + 1, rem - |Record(e)|); }
      }
    }
  }

  /** What the kernel reads out of a reply is the page. */
  lemma ReplyParses(d: Dir, i: nat, rem: nat)
    requires Proper(d) && Small(d) && i <= |d.items|
    ensures Parse(Prefix(d), Records(Page(d, i, rem))) == Some(Page(d, i, rem))
  {
    PageFields(d, i, rem);
    ParseRecords(Prefix(d), Page(d, i, rem));
  }

  /** A type that readdir reports survives the trip through st_mode. */
  lemma KindKept(kind: nat)
    ensures Kind(kind * 4096) == kind <==> kind < 16
  {
  }
}
