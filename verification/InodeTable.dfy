/** example/passthrough_hp.cc: the table of inodes, the lookup counts the kernel keeps of
    them, and the recycling of inode numbers.  Handlers are atomic steps (the file system is
    deployed single-threaded). */
module InodeTable {
  import opened Options

  type SrcId = nat      // an inode number of the source directory
  type Ptr = nat        // the address of an Inode: the node id the kernel is given

  /** inode.fd: -1, a descriptor, or -ENOENT after unlink has released it. */
  datatype Fd = Unset | Open | Gone

  /** struct Inode.  Besides its fields: of, which file (of all that had this number) the
      descriptor is open on; first, which it was when the entry was made; life, which of all
      entries the table ever held this is; owed, the lookups that were counted and never
      reached the kernel. */
  datatype Inode = Inode(ptr: Ptr, src: SrcId, fd: Fd, gen: nat, nlookup: nat, nopen: nat, of: nat, first: nat,
                         life: nat, owed: nat)

  /** An entry reply, from do_lookup or from sfs_link: what it told the kernel, about which file. */
  datatype Reply = Reply(ptr: Ptr, gen: nat, id: SrcId, of: nat, life: nat, link: bool)

  /** inc counts how often a number was given to a new file; kernel, the lookups the kernel
      has received and not forgotten. */
  datatype Fs = Fs(table: map<SrcId, Inode>, inc: map<SrcId, nat>, kernel: map<Ptr, nat>,
                   lives: nat, log: seq<Reply>, crashed: bool)

  datatype Event =
    | Lookup(id: SrcId, p: Ptr, delivered: bool)   // do_lookup and the reply, which may fail
    | Undo(id: SrcId, p: Ptr)                      // readdirplus: an entry that did not fit
    | Link(id: SrcId, delivered: bool)             // sfs_link
    | Unlink(id: SrcId, p: Ptr, last: bool)        // sfs_unlink with a zero timeout
    | Forget(p: Ptr, n: nat)                       // forget_one for the kernel
    | OpenFile(id: SrcId)
    | CloseFile(id: SrcId)
    | Reuse(id: SrcId)                             // the source directory gives the number to a new file

  function Inc(inc: map<SrcId, nat>, id: SrcId): nat { if id in inc then inc[id] else 0 }

  function Held(kernel: map<Ptr, nat>, p: Ptr): nat { if p in kernel then kernel[p] else 0 }

  predicate Live(s: Fs, p: Ptr) { exists id :: id in s.table && s.table[id].ptr == p }

  /** The entry at an address, if there is one. */
  ghost function At(s: Fs, p: Ptr): (r: Option<SrcId>)
    ensures r.Some? ==> r.value in s.table && s.table[r.value].ptr == p
    ensures r.None? ==> !Live(s, p)
  {
    if Live(s, p) then var id :| id in s.table && s.table[id].ptr == p; Some(id) else None
  }

  ghost predicate Enabled(s: Fs, e: Event) {
    match e
    case Lookup(id, p, _) => id in s.table || !Live(s, p)
    case Undo(id, p) => id in s.table || !Live(s, p)
    case Link(id, _) => id in s.table && s.table[id].fd == Open
    case Unlink(id, p, _) => id in s.table || !Live(s, p)
    case Forget(p, n) => 0 < n <= Held(s.kernel, p)
    case OpenFile(id) => id in s.table && s.table[id].fd == Open
    case CloseFile(id) => id in s.table && s.table[id].nopen > 0
    case Reuse(id) => id in s.table ==> s.table[id].fd != Open
  }

  /** fs.inodes[id]: the entry, made at p if there is none. */
  function Entry(s: Fs, id: SrcId, p: Ptr): Inode {
    if id in s.table then s.table[id] else Inode(p, id, Unset, 0, 0, 0, 0, Inc(s.inc, id), s.lives, 0)
  }

  /** do_lookup on the entry of id. */
  function Taken(s: Fs, id: SrcId, p: Ptr): Inode {
    var e := Entry(s, id, p);
    e.(nlookup := e.nlookup + 1, fd := Open, of := if e.fd == Open then e.of else Inc(s.inc, id))
  }

  function Told(e: Inode): Reply { Reply(e.ptr, e.gen, e.src, e.of, e.life, false) }

  /** sfs_link leaves the generation 0. */
  function ToldLink(e: Inode): Reply { Reply(e.ptr, 0, e.src, e.of, e.life, true) }

  /** The reply for an entry reaches the kernel or not. */
  function Answered(s: Fs, id: SrcId, e: Inode, reply: Reply, delivered: bool): Fs {
    s.(table := s.table[id := if delivered then e else e.(owed := e.owed + 1)],
       kernel := if delivered then s.kernel[e.ptr := Held(s.kernel, e.ptr) + 1] else s.kernel,
       log := s.log + [reply])
  }

  /** unlink of the last link releases the descriptor of a file that is not open. */
  function Unlinked(e: Inode, last: bool): Inode {
    if last && e.nopen == 0 then e.(fd := Gone, gen := e.gen + 1) else e
  }

  /** forget_one, with get_inode: two ways to abort, and one to follow a dangling pointer. */
  ghost function ForgetOne(s: Fs, p: Ptr, n: nat): Fs {
    match At(s, p)
    case None => s.(crashed := true)
    case Some(id) =>
      var e := s.table[id];
      if e.fd == Unset || n > e.nlookup then s.(crashed := true)
      else if e.nlookup == n then s.(table := s.table - {e.src})
      else s.(table := s.table[id := e.(nlookup := e.nlookup - n)])
  }

  function Grown(s: Fs, id: SrcId): nat { if id in s.table then s.lives else s.lives + 1 }

  ghost function Next(s: Fs, e: Event): Fs
    requires Enabled(s, e)
  {
    match e
    case Lookup(id, p, delivered) =>
      var t := Taken(s, id, p);
      Answered(s, id, t, Told(t), delivered).(lives := Grown(s, id))
    case Undo(id, p) =>
      var t := Taken(s, id, p);
      ForgetOne(s.(table := s.table[id := t], lives := Grown(s, id)), t.ptr, 1)
    case Link(id, delivered) =>
      var t := s.table[id].(nlookup := s.table[id].nlookup + 1);
      Answered(s, id, t, ToldLink(t), delivered)
    case Unlink(id, p, last) =>
      var t := Taken(s, id, p);
      s.(table := s.table[id := Unlinked(t, last).(owed := t.owed + 1)], lives := Grown(s, id))
    case Forget(p, n) => ForgetOne(s, p, n).(kernel := s.kernel[p := Held(s.kernel, p) - n])
    case OpenFile(id) => s.(table := s.table[id := s.table[id].(nopen := s.table[id].nopen + 1)])
    case CloseFile(id) => s.(table := s.table[id := s.table[id].(nopen := s.table[id].nopen - 1)])
    case Reuse(id) => s.(inc := s.inc[id := Inc(s.inc, id) + 1])
  }

  ghost predicate Trace(s: Fs, es: seq<Event>, t: Fs)
    decreases |es|
  {
    if es == [] then s == t else Enabled(s, es[0]) && Trace(Next(s, es[0]), es[1..], t)
  }

  const EMPTY := Fs(map[], map[], map[], 0, [], false)

  // ---- what every step keeps ----

  /** One entry: where it is filed, its count, and what its descriptor holds on to. */
  ghost predicate Sound(e: Inode, id: SrcId, held: nat, inc: nat) {
    && e.src == id && e.fd != Unset
    && e.nlookup == held + e.owed && e.nlookup > 0
    && (e.fd == Open ==> e.of == inc)
    && (e.nopen > 0 ==> e.fd == Open)
    && e.first <= inc && (e.gen == 0 ==> e.fd == Open && e.of == e.first)
  }

  ghost predicate Table(s: Fs) {
    && !s.crashed
    && (forall id :: id in s.table ==> Sound(s.table[id], id, Held(s.kernel, s.table[id].ptr), Inc(s.inc, id)))
    && (forall id :: id in s.table ==> s.table[id].life < s.lives)
    && (forall a, b :: a in s.table && b in s.table && a != b ==>
          s.table[a].ptr != s.table[b].ptr && s.table[a].life != s.table[b].life)
    && (forall p :: p in s.kernel && s.kernel[p] > 0 ==> Live(s, p))
  }

  /** What lookups have told the kernel of the entry is told apart by generations. */
  ghost predicate Dated(log: seq<Reply>, e: Inode) {
    forall k :: 0 <= k < |log| && log[k].life == e.life && !log[k].link ==>
      && log[k].id == e.src && log[k].ptr == e.ptr && log[k].gen <= e.gen
      && (log[k].gen == e.gen ==> e.fd == Open && log[k].of == e.of)
      && (log[k].gen == 0 ==> log[k].of == e.first)
  }

  /** Node id and generation of a lookup tell which file it was, as long as the entry lives. */
  ghost predicate Identifies(log: seq<Reply>) {
    forall j, k :: 0 <= j < |log| && 0 <= k < |log| && !log[j].link && !log[k].link &&
                   log[j].life == log[k].life && log[j].gen == log[k].gen ==>
      log[j].id == log[k].id && log[j].of == log[k].of
  }

  ghost predicate Replies(s: Fs) {
    && (forall k :: 0 <= k < |s.log| ==> s.log[k].life < s.lives)
    && (forall id :: id in s.table ==> Dated(s.log, s.table[id]))
    && Identifies(s.log)
  }

  // ---- the table and the counts ----

  /** One entry is changed or added, and the kernel's count of it. */
  lemma PutKeeps(s: Fs, id: SrcId, e: Inode, kernel: map<Ptr, nat>, lives: nat)
    requires Table(s) && Sound(e, id, Held(kernel, e.ptr), Inc(s.inc, id))
    requires id in s.table ==> e.ptr == s.table[id].ptr && e.life == s.table[id].life && lives == s.lives
    requires id !in s.table ==> !Live(s, e.ptr) && e.life == s.lives && lives == s.lives + 1
    requires forall p :: p != e.ptr ==> Held(kernel, p) == Held(s.kernel, p)
    ensures Table(s.(table := s.table[id := e], kernel := kernel, lives := lives))
  {
    hide Sound;
    var t := s.(table := s.table[id := e], kernel := kernel, lives := lives);
    assert forall x :: x in s.table && x != id ==> s.table[x].ptr != e.ptr;
    forall p | p in t.kernel && t.kernel[p] > 0 ensures Live(t, p) {
      StillLive(s, t, id, p);
    }
  }

  lemma StillLive(s: Fs, t: Fs, id: SrcId, p: Ptr)
    requires id in t.table && t.table == s.table[id := t.table[id]] &&
             (id in s.table ==> t.table[id].ptr == s.table[id].ptr)
    requires Held(t.kernel, p) > 0 && (p != t.table[id].ptr ==> Held(s.kernel, p) > 0)
    requires forall p :: p in s.kernel && s.kernel[p] > 0 ==> Live(s, p)
    ensures Live(t, p)
  {
    if p == t.table[id].ptr {
      assert t.table[id].ptr == p;
    } else {
      var x :| x in s.table && s.table[x].ptr == p;
      assert x in t.table && t.table[x].ptr == p;
    }
  }

  lemma TakenSound(s: Fs, id: SrcId, p: Ptr)
    requires Table(s) && (id in s.table || !Live(s, p))
    ensures var t := Taken(s, id, p);
            && t.src == id && t.fd == Open && t.of == Inc(s.inc, id) && t.life < Grown(s, id)
            && t.nlookup == Held(s.kernel, t.ptr) + t.owed + 1
            && t.first <= Inc(s.inc, id) && (t.gen == 0 ==> t.of == t.first)
            && (id in s.table ==> t.ptr == s.table[id].ptr && t.life == s.table[id].life)
            && (id !in s.table ==> t.ptr == p && t.life == s.lives)
  {
    if id in s.table { assert Sound(s.table[id], id, Held(s.kernel, s.table[id].ptr), Inc(s.inc, id)); }
  }

  lemma LookupCounts(s: Fs, id: SrcId, p: Ptr, delivered: bool)
    requires Table(s) && Enabled(s, Lookup(id, p, delivered))
    ensures Table(Next(s, Lookup(id, p, delivered)))
  {
    hide Table;
    TakenSound(s, id, p);
    var u := Next(s, Lookup(id, p, delivered));
    PutKeeps(s, id, u.table[id], u.kernel, u.lives);
    TableOnly(s.(table := u.table, kernel := u.kernel, lives := u.lives), u);
  }

  /** The table part does not depend on the log. */
  lemma TableOnly(s: Fs, t: Fs)
    requires Table(s) && t.table == s.table && t.inc == s.inc && t.kernel == s.kernel && t.lives == s.lives &&
             t.crashed == s.crashed
    ensures Table(t)
  {
    assert forall p :: Live(s, p) ==> Live(t, p);
  }

  lemma UnlinkCounts(s: Fs, id: SrcId, p: Ptr, last: bool)
    requires Table(s) && Enabled(s, Unlink(id, p, last))
    ensures Table(Next(s, Unlink(id, p, last)))
  {
    hide Table;
    TakenSound(s, id, p);
    var u := Next(s, Unlink(id, p, last));
    PutKeeps(s, id, u.table[id], u.kernel, u.lives);
  }

  lemma EntrySound(s: Fs, id: SrcId)
    requires Table(s) && id in s.table
    ensures Sound(s.table[id], id, Held(s.kernel, s.table[id].ptr), Inc(s.inc, id))
    ensures s.table[id].life < s.lives && At(s, s.table[id].ptr) == Some(id)
  {
    assert Live(s, s.table[id].ptr);
  }

  lemma LinkCounts(s: Fs, id: SrcId, delivered: bool)
    requires Table(s) && Enabled(s, Link(id, delivered))
    ensures Table(Next(s, Link(id, delivered)))
  {
    hide Table;
    EntrySound(s, id);
    var u := Next(s, Link(id, delivered));
    PutKeeps(s, id, u.table[id], u.kernel, u.lives);
    TableOnly(s.(table := u.table, kernel := u.kernel), u);
  }

  lemma FileCounts(s: Fs, e: Event)
    requires Table(s) && Enabled(s, e) && (e.OpenFile? || e.CloseFile?)
    ensures Table(Next(s, e))
  {
    hide Table;
    EntrySound(s, e.id);
    PutKeeps(s, e.id, Next(s, e).table[e.id], s.kernel, s.lives);
  }

  lemma ReuseCounts(s: Fs, id: SrcId)
    requires Table(s) && Enabled(s, Reuse(id))
    ensures Table(Next(s, Reuse(id)))
  {
    var t := Next(s, Reuse(id));
    assert forall p :: Live(s, p) ==> Live(t, p);
  }

  /** The last reference to an entry goes, and the entry with it. */
  lemma DropKeeps(s: Fs, id: SrcId, kernel: map<Ptr, nat>)
    requires Table(s) && id in s.table && Held(kernel, s.table[id].ptr) == 0
    requires forall p :: p != s.table[id].ptr ==> Held(kernel, p) == Held(s.kernel, p)
    ensures Table(s.(table := s.table - {id}, kernel := kernel))
  {
    var t := s.(table := s.table - {id}, kernel := kernel);
    forall p | p in t.kernel && t.kernel[p] > 0 ensures Live(t, p) {
      assert Held(s.kernel, p) > 0 && Live(s, p);
      var x :| x in s.table && s.table[x].ptr == p;
      assert x in t.table && t.table[x].ptr == p;
    }
  }

  lemma ForgetCounts(s: Fs, p: Ptr, n: nat)
    requires Table(s) && Enabled(s, Forget(p, n))
    ensures Live(s, p) && Table(Next(s, Forget(p, n)))
  {
    hide Table;
    HeldIsLive(s, p);
    ForgetEntry(s, At(s, p).value, s.kernel[p := Held(s.kernel, p) - n], n);
  }

  lemma ForgetEntry(s: Fs, id: SrcId, kernel: map<Ptr, nat>, n: nat)
    requires Table(s) && id in s.table && 0 < n <= Held(s.kernel, s.table[id].ptr)
    requires kernel == s.kernel[s.table[id].ptr := Held(s.kernel, s.table[id].ptr) - n]
    ensures Table(ForgetOne(s, s.table[id].ptr, n).(kernel := kernel))
  {
    hide Table;
    EntrySound(s, id);
    var e := s.table[id];
    if e.nlookup == n {
      DropKeeps(s, id, kernel);
    } else {
      PutKeeps(s, id, e.(nlookup := e.nlookup - n), kernel, s.lives);
    }
  }

  /** Taking a lookup for an entry that then does not fit, and giving it back. */
  lemma UndoCounts(s: Fs, id: SrcId, p: Ptr)
    requires Table(s) && Enabled(s, Undo(id, p))
    ensures Table(Next(s, Undo(id, p)))
    ensures id in s.table ==>
              Next(s, Undo(id, p)).table == s.table[id := Taken(s, id, p).(nlookup := s.table[id].nlookup)]
    ensures id !in s.table ==> Next(s, Undo(id, p)).table == s.table
  {
    hide Table;
    TakenSound(s, id, p);
    var t := Taken(s, id, p);
    var u := s.(table := s.table[id := t], lives := Grown(s, id));
    OnlyAt(s, u, id);
    if id in s.table {
      EntrySound(s, id);
      PutKeeps(s, id, t.(nlookup := t.nlookup - 1), s.kernel, s.lives);
      assert u.table[id := t.(nlookup := t.nlookup - 1)] == s.table[id := t.(nlookup := t.nlookup - 1)];
    } else {
      HeldIsLive(s, p);
      assert u.table - {id} == s.table;
      MoreLives(s);
    }
  }

  lemma MoreLives(s: Fs)
    requires Table(s)
    ensures Table(s.(lives := s.lives + 1))
  {
    var t := s.(lives := s.lives + 1);
    assert forall p :: Live(s, p) ==> Live(t, p);
  }

  lemma HeldIsLive(s: Fs, p: Ptr)
    requires Table(s)
    ensures Held(s.kernel, p) > 0 ==> Live(s, p)
  {
  }

  lemma OnlyAt(s: Fs, u: Fs, id: SrcId)
    requires Table(s) && id in u.table && u.table == s.table[id := u.table[id]]
    requires id in s.table ==> u.table[id].ptr == s.table[id].ptr
    requires id !in s.table ==> !Live(s, u.table[id].ptr)
    ensures At(u, u.table[id].ptr) == Some(id)
  {
    assert Live(u, u.table[id].ptr);
    assert forall x :: x in u.table && x != id ==> x in s.table && u.table[x] == s.table[x];
  }

  lemma StepCounts(s: Fs, e: Event)
    requires Table(s) && Enabled(s, e)
    ensures Table(Next(s, e))
  {
    hide Table, Next;
    match e
    case Lookup(id, p, d) => LookupCounts(s, id, p, d);
    case Undo(id, p) => UndoCounts(s, id, p);
    case Link(id, d) => LinkCounts(s, id, d);
    case Unlink(id, p, l) => UnlinkCounts(s, id, p, l);
    case Forget(p, n) => ForgetCounts(s, p, n);
    case OpenFile(_) => FileCounts(s, e);
    case CloseFile(_) => FileCounts(s, e);
    case Reuse(id) => ReuseCounts(s, id);
  }

  // ---- what the replies identify ----

  lemma Appended(log: seq<Reply>, e: Inode, was: Inode)
    requires Identifies(log) && Dated(log, was) && e.life == was.life && e.src == was.src && e.ptr == was.ptr
    requires e.gen == was.gen && e.fd == Open && (was.fd == Open ==> e.of == was.of)
    requires e.first == was.first && (e.gen == 0 ==> e.of == e.first)
    ensures Dated(log, e) && Dated(log + [Told(e)], e) && Identifies(log + [Told(e)])
  {
  }

  /** One entry is changed or added; the log grows at most by a reply about it. */
  lemma PutReplies(s: Fs, id: SrcId, e: Inode, log: seq<Reply>, lives: nat)
    requires Table(s) && Replies(s) && Dated(log, e) && Identifies(log)
    requires log == s.log || log == s.log + [Told(e)] || log == s.log + [ToldLink(e)]
    requires id in s.table ==> e.life == s.table[id].life && lives == s.lives
    requires id !in s.table ==> e.life == s.lives && lives == s.lives + 1
    ensures Replies(s.(table := s.table[id := e], log := log, lives := lives))
  {
    hide Identifies, Sound;
    forall x | x in s.table && x != id ensures Dated(log, s.table[x]) {
      assert s.table[x].life != e.life;
    }
  }

  /** What the kernel was told fits an entry that a lookup has just taken. */
  lemma TakenDated(s: Fs, id: SrcId, p: Ptr)
    requires Table(s) && Replies(s) && (id in s.table || !Live(s, p))
    ensures var t := Taken(s, id, p);
            Dated(s.log, t) && Dated(s.log + [Told(t)], t) && Identifies(s.log + [Told(t)])
  {
    hide Table, Sound;
    TakenSound(s, id, p);
    var e := Entry(s, id, p);
    if id !in s.table { assert Dated(s.log, e); }
    Appended(s.log, Taken(s, id, p), e);
  }

  lemma LookupReplies(s: Fs, id: SrcId, p: Ptr, delivered: bool)
    requires Table(s) && Replies(s) && Enabled(s, Lookup(id, p, delivered))
    ensures Replies(Next(s, Lookup(id, p, delivered)))
  {
    hide Table, Sound, Identifies, Replies;
    TakenSound(s, id, p);
    TakenDated(s, id, p);
    var u := Next(s, Lookup(id, p, delivered));
    SameDates(u.log, Taken(s, id, p), u.table[id]);
    PutReplies(s, id, u.table[id], u.log, u.lives);
    RepliesOnly(s.(table := u.table, log := u.log, lives := u.lives), u);
  }

  /** The counts play no part in it. */
  lemma SameDates(log: seq<Reply>, e: Inode, f: Inode)
    requires Dated(log, e)
    requires f.life == e.life && f.src == e.src && f.ptr == e.ptr && f.gen == e.gen && f.fd == e.fd && f.of == e.of &&
             f.first == e.first
    ensures Dated(log, f)
  {
  }

  lemma RepliesOnly(s: Fs, t: Fs)
    requires Replies(s) && t.table == s.table && t.log == s.log && t.lives == s.lives
    ensures Replies(t)
  {
  }

  lemma UnlinkReplies(s: Fs, id: SrcId, p: Ptr, last: bool)
    requires Table(s) && Replies(s) && Enabled(s, Unlink(id, p, last))
    ensures Replies(Next(s, Unlink(id, p, last)))
  {
    hide Table, Sound, Identifies;
    TakenSound(s, id, p);
    TakenDated(s, id, p);
    var u := Next(s, Unlink(id, p, last));
    assert Dated(s.log, u.table[id]);
    PutReplies(s, id, u.table[id], s.log, u.lives);
  }

  lemma UndoReplies(s: Fs, id: SrcId, p: Ptr)
    requires Table(s) && Replies(s) && Enabled(s, Undo(id, p))
    ensures Replies(Next(s, Undo(id, p)))
  {
    hide Table, Sound, Identifies;
    UndoCounts(s, id, p);
    TakenSound(s, id, p);
    TakenDated(s, id, p);
    var u := Next(s, Undo(id, p));
    assert u.log == s.log && u.lives == Grown(s, id);
    if id in s.table {
      SameDates(s.log, Taken(s, id, p), u.table[id]);
      PutReplies(s, id, u.table[id], s.log, u.lives);
    }
  }

  lemma LinkReplies(s: Fs, id: SrcId, delivered: bool)
    requires Table(s) && Replies(s) && Enabled(s, Link(id, delivered))
    ensures Replies(Next(s, Link(id, delivered)))
  {
    hide Table, Sound;
    EntrySound(s, id);
    var u := Next(s, Link(id, delivered));
    RepliesDated(s, id);
    Linked(s.log, s.table[id], u.table[id], ToldLink(u.table[id]));
    PutReplies(s, id, u.table[id], u.log, u.lives);
  }

  /** A reply to a link says nothing about lookups. */
  lemma Linked(log: seq<Reply>, e: Inode, f: Inode, r: Reply)
    requires Dated(log, e) && Identifies(log) && r.link
    requires f.life == e.life && f.src == e.src && f.ptr == e.ptr && f.gen == e.gen && f.fd == e.fd && f.of == e.of &&
             f.first == e.first
    ensures Dated(log + [r], f) && Identifies(log + [r])
  {
  }

  lemma ForgetReplies(s: Fs, p: Ptr, n: nat)
    requires Replies(s) && Enabled(s, Forget(p, n))
    ensures Replies(Next(s, Forget(p, n)))
  {
    hide Identifies, Dated, Live;
    var u := Next(s, Forget(p, n));
    forall id | id in u.table ensures id in s.table && Dated(u.log, u.table[id]) {
      assert Dated(s.log, s.table[id]);
      SameDates(s.log, s.table[id], u.table[id]);
    }
  }

  lemma RestReplies(s: Fs, e: Event)
    requires Replies(s) && Enabled(s, e) && (e.OpenFile? || e.CloseFile? || e.Reuse?)
    ensures Replies(Next(s, e))
  {
    hide Identifies, Dated, Live;
    var u := Next(s, e);
    forall id | id in u.table ensures id in s.table && Dated(u.log, u.table[id]) {
      assert Dated(s.log, s.table[id]);
      SameDates(s.log, s.table[id], u.table[id]);
    }
  }

  ghost predicate Inv(s: Fs) { Table(s) && Replies(s) }

  lemma StepKeeps(s: Fs, e: Event)
    requires Inv(s) && Enabled(s, e)
    ensures Inv(Next(s, e))
  {
    hide Table, Replies;
    StepCounts(s, e);
    match e
    case Lookup(id, p, d) => LookupReplies(s, id, p, d);
    case Undo(id, p) => UndoReplies(s, id, p);
    case Link(id, d) => LinkReplies(s, id, d);
    case Unlink(id, p, l) => UnlinkReplies(s, id, p, l);
    case Forget(p, n) => ForgetReplies(s, p, n);
    case _ => RestReplies(s, e);
  }

  lemma {:induction false} OneMore(s: Fs, es: seq<Event>, t: Fs, e: Event)
    requires Trace(s, es, t) && Enabled(t, e)
    ensures Trace(s, es + [e], Next(t, e))
    decreases |es|
  {
    hide Enabled, Next;
    if es == [] {
      assert [e][1..] == [] && es + [e] == [e];
    } else {
      OneMore(Next(s, es[0]), es[1..], t, e);
      assert (es + [e])[1..] == es[1..] + [e];
    }
  }

  lemma {:induction false} RunKeeps(s: Fs, es: seq<Event>, t: Fs)
    requires Inv(s) && Trace(s, es, t)
    ensures Inv(t)
    decreases |es|
  {
    hide Inv, Next;
    if es != [] {
      StepKeeps(s, es[0]);
      RunKeeps(Next(s, es[0]), es[1..], t);
    }
  }

  // ---- what holds of every run ----

  lemma Reached(es: seq<Event>, s: Fs)
    requires Trace(EMPTY, es, s)
    ensures Table(s) && Replies(s)
  {
    RunKeeps(EMPTY, es, s);
  }

  /** No run aborts or follows a dangling node id.  Each node id the kernel holds is the
      address of an entry, filed under its own number and counting at least the kernel's
      lookups: exactly those, and the ones whose reply never reached it. */
  lemma CountsAgree(es: seq<Event>, s: Fs)
    requires Trace(EMPTY, es, s)
    ensures !s.crashed
    ensures forall p :: Held(s.kernel, p) > 0 ==> exists id :: id in s.table && s.table[id].ptr == p
    ensures forall id :: id in s.table ==>
              var e := s.table[id];
              e.src == id && e.fd != Unset && e.nlookup == Held(s.kernel, e.ptr) + e.owed
  {
    Reached(es, s);
    forall p | Held(s.kernel, p) > 0 ensures Live(s, p) { HeldIsLive(s, p); }
  }

  /** A forget erases the entry it is for, and no other, exactly when the kernel gives back
      all it holds and no lookup of the entry went astray. */
  lemma ErasedExactly(es: seq<Event>, s: Fs, id: SrcId, n: nat)
    requires Trace(EMPTY, es, s) && id in s.table && Enabled(s, Forget(s.table[id].ptr, n))
    ensures var t := Next(s, Forget(s.table[id].ptr, n));
            && (id !in t.table <==> Held(s.kernel, s.table[id].ptr) == n && s.table[id].owed == 0)
            && t.table - {id} == s.table - {id}
  {
    hide Table, Replies, Live, Trace;
    Reached(es, s);
    EntrySound(s, id);
  }

  /** A lookup that went astray keeps its entry in the table for good. */
  lemma {:induction false} LostLookupStays(s: Fs, es: seq<Event>, t: Fs, id: SrcId)
    requires Inv(s) && Trace(s, es, t) && id in s.table && s.table[id].owed > 0
    ensures id in t.table && t.table[id].life == s.table[id].life && t.table[id].owed >= s.table[id].owed
    decreases |es|
  {
    hide Inv, Next;
    if es != [] {
      StepKeeps(s, es[0]);
      LostLookupStep(s, es[0], id);
      LostLookupStays(Next(s, es[0]), es[1..], t, id);
    }
  }

  lemma LostLookupStep(s: Fs, e: Event, id: SrcId)
    requires Inv(s) && Enabled(s, e) && id in s.table && s.table[id].owed > 0
    ensures var t := Next(s, e);
            id in t.table && t.table[id].life == s.table[id].life && t.table[id].owed >= s.table[id].owed
  {
    hide Replies, Table, Sound;
    match e {
      case Undo(x, p) => UndoCounts(s, x, p);
      case Forget(p, n) =>
        HeldIsLive(s, p);
        EntrySound(s, At(s, p).value);
        ForgetSpares(s, At(s, p).value, id, n);
      case _ =>
    }
  }

  lemma ForgetSpares(s: Fs, x: SrcId, id: SrcId, n: nat)
    requires x in s.table && id in s.table && s.table[id].owed > 0 && At(s, s.table[x].ptr) == Some(x)
    requires Sound(s.table[x], x, Held(s.kernel, s.table[x].ptr), Inc(s.inc, x)) && n <= Held(s.kernel, s.table[x].ptr)
    ensures var t := ForgetOne(s, s.table[x].ptr, n);
            id in t.table && t.table[id].life == s.table[id].life && t.table[id].owed == s.table[id].owed
  {
  }

  /** As long as an entry lives, node id and generation together name one file: two lookups
      that agree on them found the same one, however often the number was reused and whatever
      was linked. */
  lemma GenerationTellsApart(es: seq<Event>, s: Fs, j: nat, k: nat)
    requires Trace(EMPTY, es, s) && j < |s.log| && k < |s.log| && !s.log[j].link && !s.log[k].link
    requires s.log[j].life == s.log[k].life && s.log[j].gen == s.log[k].gen
    ensures s.log[j].id == s.log[k].id && s.log[j].of == s.log[k].of
  {
    Reached(es, s);
  }

  lemma RepliesDated(s: Fs, id: SrcId)
    requires Replies(s) && id in s.table
    ensures Dated(s.log, s.table[id])
  {
  }

  /** A lookup said the same of another file. */
  ghost predicate Misleads(log: seq<Reply>, r: Reply) {
    exists k :: 0 <= k < |log| && !log[k].link && log[k].life == r.life && log[k].gen == r.gen && log[k].of != r.of
  }

  /** A lookup of the entry was answered with generation 0. */
  ghost predicate KnownAsZero(log: seq<Reply>, e: Inode) {
    exists k :: 0 <= k < |log| && !log[k].link && log[k].life == e.life && log[k].gen == 0
  }

  /** sfs_link always answers generation 0.  That is what a lookup said of another file if and
      only if the entry was known by generation 0 and its number has been reused since the
      entry was made; its own generation is then not 0. */
  lemma LinkTellsApart(es: seq<Event>, s: Fs, id: SrcId, delivered: bool)
    requires Trace(EMPTY, es, s) && Enabled(s, Link(id, delivered))
    ensures var e := s.table[id];
            && Next(s, Link(id, delivered)).log == s.log + [ToldLink(e)]
            && (Misleads(s.log, ToldLink(e)) <==> KnownAsZero(s.log, e) && e.first < Inc(s.inc, id))
            && (e.first < Inc(s.inc, id) ==> e.gen > 0)
  {
    hide Table, Trace;
    Reached(es, s);
    EntrySound(s, id);
    RepliesDated(s, id);
  }

  /** And it does go wrong for every entry that was looked up, unlinked, and found again with
      its number reused. */
  lemma RecycledLinkCollides(s: Fs, id: SrcId, k: nat) returns (t: Fs)
    requires Inv(s) && id in s.table && s.table[id].nopen == 0 && s.table[id].gen == 0
    requires k < |s.log| && s.log[k].life == s.table[id].life && !s.log[k].link
    ensures Trace(s, [Unlink(id, s.table[id].ptr, true), Reuse(id), Lookup(id, s.table[id].ptr, true),
                      Link(id, true)], t)
    ensures t.log != [] && t.log[|t.log| - 1].link && Misleads(t.log, t.log[|t.log| - 1])
  {
    hide Table, Replies, Live, At, ForgetOne;
    var p := s.table[id].ptr;
    EntrySound(s, id);
    RepliesDated(s, id);
    assert s.log[k].gen == 0 && s.log[k].of == Inc(s.inc, id);
    var s1 := Next(s, Unlink(id, p, true));
    var s2 := Next(s1, Reuse(id));
    var s3 := Next(s2, Lookup(id, p, true));
    t := Next(s3, Link(id, true));
    assert s3.table[id].of == Inc(s.inc, id) + 1 && s3.table[id].life == s.table[id].life;
    assert t.log[k] == s.log[k] && t.log[|t.log| - 1] == ToldLink(s3.table[id]);
    Four(s, Unlink(id, p, true), Reuse(id), Lookup(id, p, true), Link(id, true), s1, s2, s3, t);
  }

  /** Such a run from the start. */
  lemma RecycledLinkOccurs(id: SrcId, p: Ptr) returns (es: seq<Event>, t: Fs)
    ensures Trace(EMPTY, es, t)
    ensures t.log != [] && t.log[|t.log| - 1].link && Misleads(t.log, t.log[|t.log| - 1])
  {
    hide Inv, Misleads;
    var s := Next(EMPTY, Lookup(id, p, true));
    assert Inv(EMPTY) by { EmptyInv(); }
    StepKeeps(EMPTY, Lookup(id, p, true));
    t := RecycledLinkCollides(s, id, 0);
    var rest := [Unlink(id, p, true), Reuse(id), Lookup(id, p, true), Link(id, true)];
    es := [Lookup(id, p, true)] + rest;
    assert es[1..] == rest;
  }

  lemma EmptyInv()
    ensures Inv(EMPTY)
  {
  }

  lemma Four(s: Fs, e1: Event, e2: Event, e3: Event, e4: Event, s1: Fs, s2: Fs, s3: Fs, t: Fs)
    requires Enabled(s, e1) && s1 == Next(s, e1) && Enabled(s1, e2) && s2 == Next(s1, e2)
    requires Enabled(s2, e3) && s3 == Next(s2, e3) && Enabled(s3, e4) && t == Next(s3, e4)
    ensures Trace(s, [e1, e2, e3, e4], t)
  {
    hide Enabled, Next;
    assert [e1, e2, e3, e4][1..] == [e2, e3, e4] && [e2, e3, e4][1..] == [e3, e4];
    assert [e3, e4][1..] == [e4] && [e4][1..] == [];
    assert Trace(t, [], t);
    assert Trace(s3, [e4], t);
    assert Trace(s2, [e3, e4], t);
    assert Trace(s1, [e2, e3, e4], t);
  }
}
