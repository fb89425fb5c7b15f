/** lib/fuse_loop_mt.c: the critical sections on the circular list of workers. */
module WorkerRing {
  import opened Options
  import opened Ring
  import opened Sequences
  import opened WorkerPool

  /** struct fuse_worker; its id is the thread's. */
  type Worker = Cell

  /** struct fuse_mt. */
  class Mt {
    const main: Worker
    var numworker: int
    var numavail: int
    const maxIdle: int
    var exit: bool
    ghost var ring: seq<Worker>

    constructor (idle: int)
      ensures Valid() && fresh(main) && View() == Shared([], 0, 0, idle, false)
    {
      main := new Cell(0);
      numworker, numavail, maxIdle, exit, ring := 0, 0, idle, false, [];
    }

    ghost predicate Valid()
      reads this, main, ring
    {
      Linked(main, ring) && Distinct(Ids(ring))
    }

    ghost function View(): Shared
      reads this
    {
      Shared(Ids(ring), numavail, numworker, maxIdle, exit)
    }

    /** fuse_loop_start_thread; pthread_create may fail. */
    method StartThread(spawn: Option<Tid>)
      requires Valid() && (spawn.Some? ==> spawn.value !in Ids(ring))
      modifies this, main, ring
      ensures Valid() && fresh(Elems(ring) - Elems(old(ring)))
      ensures View() == if spawn.Some? then Started(old(View()), spawn.value) else old(View())
    {
      if spawn.None? { return; }
      var w := new Cell(spawn.value);
      LastIsPrev(main, ring);
      ListAdd(w, main, ring);
      assert Ids(ring + [w]) == Ids(ring) + [w.id];
      ring := ring + [w];
      numavail := numavail + 1;
      numworker := numworker + 1;
    }

    /** fuse_do_work, first critical section; true if the thread is to return. */
    method Section1(forget: bool, spawn: Option<Tid>) returns (gone: bool)
      requires Valid() && (spawn.Some? ==> spawn.value !in Ids(ring))
      modifies this, main, ring
      ensures Valid() && fresh(Elems(ring) - Elems(old(ring)))
      ensures gone == old(exit)
      ensures View() == if gone then old(View()) else Took(old(View()), forget, spawn)
    {
      if exit { return true; }
      if !forget { numavail := numavail - 1; }
      if numavail == 0 { StartThread(spawn); }
      return false;
    }

    /** fuse_do_work, second critical section. */
    method Section2(w: Worker, forget: bool, ghost k: nat) returns (a: After)
      requires Valid() && k < |ring| && ring[k] == w
      modifies this, main, ring
      ensures Valid() && Elems(ring) <= Elems(old(ring))
      ensures (View(), a) == Finished(old(View()), w.id, forget)
    {
      hide Linked, Remove, Distinct, Ids;
      if !forget { numavail := numavail + 1; }
      if numavail > maxIdle {
        if exit { return Returns; }
        Neighbours(main, ring, k);
        ListDel(w, main, ring, k);
        LeaveOut(ring, k);
        ring := ring[..k] + ring[k + 1..];
        numavail := numavail - 1;
        numworker := numworker - 1;
        return Detaches;
      }
      return GoesOn;
    }

    /** fuse_session_loop_mt_32: exit is set, then the ring is joined empty from its head. */
    method ExitAndJoin() returns (joined: seq<Tid>)
      requires Valid()
      modifies this, main, ring
      ensures Valid() && exit && ring == [] && joined == old(Ids(ring))
    {
      hide Linked, Remove, Distinct, Ids;
      exit := true;
      joined := [];
      while main.next != main
        invariant Valid() && exit && joined + Ids(ring) == old(Ids(ring))
        invariant forall x :: x in ring ==> x in old(ring)
        decreases |ring|
      {
        var w := main.next;
        NextIsFirst(main, ring);
        Neighbours(main, ring, 0);
        ListDel(w, main, ring, 0);
        LeaveOut(ring, 0);
        assert ring[..0] + ring[1..] == ring[1..];
        FirstId(ring);
        ring := ring[1..];
        joined := joined + [w.id];
      }
      NextIsFirst(main, ring);
    }
  }

  /** Leaving worker k out of the ring leaves its id out of the list. */
  lemma LeaveOut(s: seq<Worker>, k: nat)
    requires k < |s| && Distinct(Ids(s))
    ensures var r := s[..k] + s[k + 1..];
      Ids(r) == Remove(Ids(s), s[k].id) && Distinct(Ids(r)) && Elems(r) <= Elems(s)
  {
    var r := s[..k] + s[k + 1..];
    RemoveAt(Ids(s), k);
    assert Ids(s)[k] == s[k].id;
    assert Ids(r) == Ids(s)[..k] + Ids(s)[k + 1..];
    RemoveOne(Ids(s), s[k].id);
  }
}
