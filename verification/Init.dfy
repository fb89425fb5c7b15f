/** lib/fuse_lowlevel.c: do_init, the negotiation of an INIT request.  Flag words are the sets
    of their bits. */
module Init {
  import Storage

  const BIG_WRITES := 5
  const MAX_PAGES := 22
  const HEADER := 0x1000             // FUSE_BUFFER_HEADER_SIZE
  const MIN_READ_BUFFER := 8192
  const MOST_PAGES := 256            // FUSE_MAX_MAX_PAGES
  const DEFAULT_PAGES := 32          // FUSE_DEFAULT_MAX_PAGES_PER_REQ

  /** The FUSE_* bits that are turned into capabilities, and the capabilities that are turned
      back into flags of the reply. */
  const KNOWN: set<nat> := {0, 1, 3, 4, 6, 10, 12, 13, 14, 15, 16, 17, 18, 19, 20, 23, 24, 25}
  const TOLD: set<nat> := {0, 1, 3, 4, 6, 10, 12, 13, 14, 15, 16, 19, 23, 25}
  const SPLICE: set<nat> := {7, 8, 9}
  const IOCTL_DIR := 11

  /** FUSE_HANDLE_KILLPRIV and FUSE_POSIX_ACL have each other's FUSE_CAP_* bit. */
  function Swap(b: nat): nat { if b == 19 then 20 else if b == 20 then 19 else b }

  function Offered(flags: set<nat>): set<nat> { set b | b in flags && b in KNOWN :: Swap(b) }

  /** se->conn.capable */
  function Capable(flags: set<nat>, minor: nat): set<nat> {
    (if minor >= 6 then Offered(flags) else {}) +
    (if minor >= 14 then SPLICE else {}) +
    (if minor >= 18 then {IOCTL_DIR} else {})
  }

  /** The flags of the reply for se->conn.want. */
  function Announced(want: set<nat>): set<nat> { set c | c in want && c in TOLD :: Swap(c) }

  /** The capabilities that are wanted by default if the operations they need are there. */
  function Default(capable: set<nat>, ops: Ops): set<nat> {
    capable * ({0, 18, 12, 20, 15, IOCTL_DIR, 3}
               + (if ops.writeBuf then {9} else {}) + (if ops.locks then {1} else {}) + (if ops.flock then {10} else {})
               + (if ops.readdirplus then {13} else {}) + (if ops.readdirplus && ops.readdir then {14} else {}))
  }

  datatype Ops = Ops(writeBuf: bool, locks: bool, flock: bool, readdirplus: bool, readdir: bool)

  datatype In = In(major: nat, minor: nat, maxReadahead: nat, flags: set<nat>)

  datatype Conn = Conn(maxReadahead: nat, maxWrite: nat, maxRead: nat, maxBackground: nat, congestion: nat,
                       capable: set<nat>, want: set<nat>)

  datatype Out = Out(flags: set<nat>, maxReadahead: nat, maxWrite: nat, maxPages: nat, maxBackground: nat,
                     congestion: nat)

  /** EPROTO; a bare reply that makes the kernel ask again with version 7; the negotiated one. */
  datatype Reply = Refused | AskAgain | Agreed(out: Out)

  /** No flag is announced that the kernel did not offer, if nothing is wanted beyond what it
      is capable of. */
  lemma AnnouncedWasOffered(flags: set<nat>, minor: nat, want: set<nat>)
    requires want <= Capable(flags, minor)
    ensures Announced(want) <= flags
  {
    forall f | f in Announced(want) ensures f in flags {
      var c :| c in want && c in TOLD && f == Swap(c);
      assert c in Offered(flags);
      var b :| b in flags && b in KNOWN && c == Swap(b);
    }
  }

  /** max_pages is how many pages max_write takes. */
  function Pages(maxWrite: nat, page: nat): nat
    requires maxWrite > 0 && page > 0
  {
    (maxWrite - 1) / page + 1
  }

  /** As the expression with an unsigned max_write, stored in 16 bits, gives it. */
  function MaxPages(maxWrite: nat, page: nat): nat
    requires page > 0
  {
    (((maxWrite + 0xffff_ffff) % 0x1_0000_0000) / page + 1) % 0x1_0000
  }

  /** It is the number of pages if and only if there is something to write and that number
      fits; for a max_write of 0 and pages of 4096 bytes it is 0. */
  lemma MaxPagesExact(maxWrite: nat, page: nat)
    requires maxWrite < 0x1_0000_0000 && page > 0
    ensures maxWrite > 0 ==> (MaxPages(maxWrite, page) == Pages(maxWrite, page) <==> Pages(maxWrite, page) < 0x1_0000)
    ensures MaxPages(0, 4096) == 0
  {
    if maxWrite > 0 {
      assert (maxWrite + 0xffff_ffff) % 0x1_0000_0000 == maxWrite - 1;
    }
  }

  lemma PagesExact(maxWrite: nat, page: nat)
    requires maxWrite > 0 && page > 0
    ensures (Pages(maxWrite, page) - 1) * page < maxWrite <= Pages(maxWrite, page) * page
    ensures forall n: nat :: maxWrite <= n * page ==> Pages(maxWrite, page) <= n
  {
    var q := (maxWrite - 1) / page;
    assert maxWrite - 1 == q * page + (maxWrite - 1) % page;
    assert (q + 1) * page == q * page + page;
    forall n: nat | maxWrite <= n * page ensures q + 1 <= n {
      assert n <= q ==> n * page <= q * page;
    }
  }

  /** The reply, once the callback has had its say. */
  function Finish(conn: Conn, arg: In, page: nat): Out
    requires page > 0
  {
    var background := Storage.Min(conn.maxBackground, 65535);
    var threshold := Storage.Min(conn.congestion, background);
    Out(Announced(conn.want) + {BIG_WRITES} + (if MAX_PAGES in arg.flags then {MAX_PAGES} else {}),
        conn.maxReadahead, conn.maxWrite,
        if MAX_PAGES in arg.flags then MaxPages(conn.maxWrite, page) else 0,
        if arg.minor >= 13 then background else 0,
        if arg.minor < 13 then 0 else if threshold == 0 then background * 3 / 4 else threshold)
  }

  lemma FinishGood(conn: Conn, arg: In, page: nat)
    requires conn.maxWrite < 0x1_0000_0000 && page > 0
    ensures var out := Finish(conn, arg, page);
            && (conn.want <= Capable(arg.flags, arg.minor) ==> out.flags <= arg.flags + {BIG_WRITES})
            && Announced(conn.want) + {BIG_WRITES} <= out.flags && out.maxWrite == conn.maxWrite
            && (0 < conn.maxWrite <= MOST_PAGES * page ==>
                  out.maxPages <= MOST_PAGES &&
                  out.maxPages == if MAX_PAGES in arg.flags then Pages(conn.maxWrite, page) else 0)
            && out.congestion <= out.maxBackground < 65536
  {
    hide Capable, Announced, Pages, MaxPages;
    if conn.want <= Capable(arg.flags, arg.minor) { AnnouncedWasOffered(arg.flags, arg.minor, conn.want); }
    if conn.maxWrite > 0 {
      PagesExact(conn.maxWrite, page);
      MaxPagesExact(conn.maxWrite, page);
    }
  }

  /** Two capabilities that are wanted by default never reach the reply: PARALLEL_DIROPS and
      HANDLE_KILLPRIV. */
  lemma SilentDefaults(flags: set<nat>, minor: nat, ops: Ops)
    requires minor >= 6 && 18 in flags && 19 in flags
    ensures var want := Default(Capable(flags, minor), ops);
            18 in want && 20 in want && Announced(want) == Announced(want - {18, 20})
  {
    assert Swap(18) == 18 && 18 in Offered(flags);
    assert Swap(19) == 20 && 20 in Offered(flags);
  }

  class Session {
    var conn: Conn
    var bufsize: nat
    const page: nat          // getpagesize()
    const ops: Ops
    const maxReadOption: nat // max_read among the mount options

    /** fuse_session_new */
    constructor (c: Conn, pagesize: nat, o: Ops, maxRead: nat)
      requires pagesize > 0
      ensures conn == c && page == pagesize && ops == o && maxReadOption == maxRead &&
              bufsize == MOST_PAGES * pagesize + HEADER
    {
      conn, page, ops, maxReadOption := c, pagesize, o, maxRead;
      bufsize := MOST_PAGES * pagesize + HEADER;
    }

    /** The first half of do_init: capabilities, defaults and limits from what the kernel says. */
    method Propose(arg: In) returns (size: nat)
      requires page >= 16 && bufsize == MOST_PAGES * page + HEADER
      modifies `conn, `bufsize
      ensures conn.capable == Capable(arg.flags, arg.minor) && conn.want <= conn.capable
      ensures conn.maxReadahead <= old(conn.maxReadahead) && conn.maxReadahead <= arg.maxReadahead
      ensures bufsize == size && MIN_READ_BUFFER <= size <= MOST_PAGES * page + HEADER
      ensures MAX_PAGES !in arg.flags && arg.minor >= 6 ==>
                size <= DEFAULT_PAGES * page + HEADER || size == MIN_READ_BUFFER
      ensures conn.maxWrite == Storage.Min(old(conn.maxWrite), size - HEADER)
    {
      hide Capable;
      size := bufsize;
      if arg.minor >= 6 {
        conn := conn.(maxReadahead := Storage.Min(conn.maxReadahead, arg.maxReadahead));
        if MAX_PAGES !in arg.flags {
          size := Storage.Min(size, DEFAULT_PAGES * page + HEADER);
        }
      } else {
        conn := conn.(maxReadahead := 0);
      }
      conn := conn.(capable := Capable(arg.flags, arg.minor));
      conn := conn.(want := Default(conn.capable, ops));
      if size < MIN_READ_BUFFER { size := MIN_READ_BUFFER; }
      bufsize := size;
      conn := conn.(maxWrite := Storage.Min(conn.maxWrite, size - HEADER));
    }

    /** do_init, with what the init callback does to the connection as a parameter: given the
        connection before it, any other.  room is the largest write that the negotiated buffer
        has room for.  A reply that is sent announces only flags the kernel offered, and
        BIG_WRITES, unless the callback has changed what the kernel is capable of; the receive
        buffer is the largest write and its header if and only if the callback has not raised
        max_write above room; max_pages are the pages that takes, at most 256 of them, if it
        is positive as well; and the background limits are always in order. */
    method DoInit(arg: In, init: Conn -> Conn) returns (reply: Reply, ghost room: nat)
      requires page >= 16 && bufsize == MOST_PAGES * page + HEADER
      requires forall c: Conn :: init(c).maxWrite < 0x1_0000_0000
      modifies `conn, `bufsize
      ensures reply.AskAgain? <==> arg.major > 7
      ensures reply.Refused? <==>
                arg.major < 7 || (arg.major == 7 && !(conn.want <= conn.capable && conn.maxRead == maxReadOption))
      ensures reply.Agreed? ==>
                && (conn.capable <= Capable(arg.flags, arg.minor) ==> reply.out.flags <= arg.flags + {BIG_WRITES})
                && Announced(conn.want) + {BIG_WRITES} <= reply.out.flags
      ensures reply.Agreed? ==>
                && MIN_READ_BUFFER - HEADER <= room <= MOST_PAGES * page
                && (MAX_PAGES !in arg.flags && arg.minor >= 6 && page >= 128 ==> room <= DEFAULT_PAGES * page)
                && bufsize == Storage.Min(conn.maxWrite, room) + HEADER && reply.out.maxWrite == conn.maxWrite
                && (bufsize == conn.maxWrite + HEADER <==> conn.maxWrite <= room)
      ensures reply.Agreed? && 0 < conn.maxWrite <= room ==>
                && reply.out.maxPages == (if MAX_PAGES in arg.flags then Pages(conn.maxWrite, page) else 0)
                && reply.out.maxPages <= MOST_PAGES
      ensures reply.Agreed? ==> reply.out.congestion <= reply.out.maxBackground < 65536
    {
      hide Capable, Announced, Default, Pages, Finish;
      room := 0;
      if arg.major < 7 { return Refused, room; }
      if arg.major > 7 { return AskAgain, room; }
      var size := Propose(arg);
      room := size - HEADER;
      conn := init(conn);
      if !(conn.want <= conn.capable) { return Refused, room; }
      if conn.maxRead != maxReadOption { return Refused, room; }
      if conn.maxWrite < size - HEADER {
        bufsize := conn.maxWrite + HEADER;
      }
      FinishGood(conn, arg, page);
      reply := Agreed(Finish(conn, arg, page));
      if arg.minor >= 13 {
        conn := conn.(maxBackground := reply.out.maxBackground, congestion := reply.out.congestion);
      }
    }
  }
}
