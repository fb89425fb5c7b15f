/** lib/fuse_lowlevel.c: the two circular lists of a session, of requests and of INTERRUPTs that
    wait, and the critical sections on them.  Each does the step of Interrupts it stands for. */
module RequestRing {
  import opened Options
  import opened Sequences
  import opened Ring
  import opened Interrupts

  /** The INTERRUPTs in a ring, with the targets they carry. */
  ghost function Waits(s: seq<Cell>, target: map<Iid, nat>): (l: seq<Pending>)
    requires forall c :: c in s ==> c.id in target
    ensures |l| == |s| && forall k :: 0 <= k < |s| ==> l[k] == Pending(s[k].id, target[s[k].id])
  {
    seq(|s|, k requires 0 <= k < |s| => Pending(s[k].id, target[s[k].id]))
  }

  function Later(k: Option<nat>, n: nat): Option<nat> {
    match k case None => None case Some(v) => Some(v + n)
  }

  /** struct fuse_session: se->list and se->interrupts are the heads of the two rings. */
  class Se {
    const list: Cell
    const interrupts: Cell
    var reqs: map<Rid, Req>          // what the requests hold besides their links
    var target: map<Iid, nat>        // and the INTERRUPTs: req->u.i.unique
    var handling: map<Iid, Handling>
    ghost var live: seq<Cell>
    ghost var waiting: seq<Cell>
    ghost var applied: set<Iid>
    ghost var dropped: set<Iid>
    ghost var answered: set<Iid>

    /** Both rings are linked, and have no cell in common. */
    ghost predicate Valid()
      reads this, list, interrupts, live, waiting
    {
      && Linked(list, live) && Linked(interrupts, waiting) && list != interrupts
      && interrupts !in live && list !in waiting && (forall c :: c in live ==> c !in waiting)
      && (forall c :: c in live ==> c.id in reqs)
      && (forall c :: c in waiting ==> c.id in target)
    }

    ghost function View(): Session
      reads this
      requires forall c :: c in waiting ==> c.id in target
    {
      Session(Ids(live), Waits(waiting, target), reqs, handling, applied, dropped, answered)
    }

    constructor ()
      ensures Valid() && fresh(list) && fresh(interrupts) && View() == EMPTY
    {
      list := new Cell(0);
      interrupts := new Cell(0);
      reqs, target, handling := map[], map[], map[];
      live, waiting, applied, dropped, answered := [], [], {}, {}, {};
    }

    /** find_interrupted: the loop over se->list. */
    method Search(unique: nat) returns (found: Cell)
      requires Valid()
      ensures found == list ==> Find(Ids(live), reqs, unique) == None
      ensures found != list ==> found in live && Find(Ids(live), reqs, unique) == Some(found.id)
    {
      found := list.next;
      ghost var k := 0;
      assert Link(At(list, live, 0), At(list, live, 1));
      assert Ids(live)[0..] == Ids(live);
      while found != list
        invariant k <= |live| && found == At(list, live, k + 1)
        invariant Find(Ids(live), reqs, unique) == Find(Ids(live)[k..], reqs, unique)
        decreases |live| - k
      {
        assert found == live[k] && Ids(live)[k..][0] == found.id;
        if reqs[found.id].unique == unique { return; }
        assert Link(At(list, live, k + 1), At(list, live, k + 2));
        found, k := found.next, k + 1;
      }
      assert k == |live|;
    }

    /** The loop over se->interrupts, in find_interrupted and in check_interrupt. */
    method SearchWaiting(unique: nat) returns (found: Cell, ghost k: nat)
      requires Valid()
      ensures found == interrupts ==> FindPending(Waits(waiting, target), unique) == None
      ensures found != interrupts ==>
                k < |waiting| && found == waiting[k] && FindPending(Waits(waiting, target), unique) == Some(k)
    {
      ghost var l := Waits(waiting, target);
      found, k := interrupts.next, 0;
      assert Link(At(interrupts, waiting, 0), At(interrupts, waiting, 1));
      assert l[0..] == l;
      while found != interrupts
        invariant k <= |waiting| && found == At(interrupts, waiting, k + 1)
        invariant FindPending(l, unique) == Later(FindPending(l[k..], unique), k)
        decreases |waiting| - k
      {
        assert found == waiting[k] && l[k..][0] == Pending(found.id, target[found.id]);
        if target[found.id] == unique { return; }
        assert Link(At(interrupts, waiting, k + 1), At(interrupts, waiting, k + 2));
        found, k := found.next, k + 1;
      }
    }

    /** list_del_req of an INTERRUPT that waits. */
    method TakeWaiting(c: Cell, ghost k: nat)
      requires Valid() && k < |waiting| && waiting[k] == c
      modifies `waiting, interrupts, waiting
      ensures Valid() && waiting == Without(old(waiting), k) && c !in waiting
      ensures forall x :: x in waiting ==> x in old(waiting)
      ensures Waits(waiting, target) == Without(Waits(old(waiting), target), k)
    {
      hide Linked;
      Neighbours(interrupts, waiting, k);
      NoneTwice(interrupts, waiting);
      ListDel(c, interrupts, waiting, k);
      assert forall x :: x in Without(waiting, k) ==> x in waiting;
      waiting := Without(waiting, k);
    }

    /** list_add_req to the INTERRUPTs that wait. */
    method AddWaiting(c: Cell, unique: nat)
      requires Valid() && c != list && c != interrupts && c !in live && c !in waiting && c.id !in target
      modifies `waiting, `target, c, interrupts, waiting
      ensures Valid() && waiting == old(waiting) + [c] && target == old(target)[c.id := unique]
      ensures Waits(waiting, target) == Waits(old(waiting), old(target)) + [Pending(c.id, unique)]
    {
      hide Linked;
      LastIsPrev(interrupts, waiting);
      assert interrupts.prev !in live;
      ListAdd(c, interrupts, waiting);
      assert unchanged(list) && forall x :: x in live ==> unchanged(x);
      assert list !in waiting + [c] && forall x :: x in live ==> x !in waiting + [c];
      waiting := waiting + [c];
      target := target[c.id := unique];
    }

    /** list_add_req of a new request. */
    method AddLive(c: Cell, q: Req)
      requires Valid() && c != list && c != interrupts && c !in live && c !in waiting
      modifies `live, `reqs, c, list, live
      ensures Valid() && live == old(live) + [c] && Ids(live) == Ids(old(live)) + [c.id] && reqs == old(reqs)[c.id := q]
    {
      hide Linked;
      LastIsPrev(list, live);
      assert list.prev !in waiting;
      ListAdd(c, list, live);
      assert unchanged(interrupts) && forall x :: x in waiting ==> unchanged(x);
      assert interrupts !in live + [c] && forall x :: x in live + [c] ==> x !in waiting;
      live := live + [c];
      reqs := reqs[c.id := q];
    }

    /** check_interrupt: whether an INTERRUPT for the request came first, and the one that is to
        be answered EAGAIN, if there is one. */
    method Check(unique: nat) returns (found: bool, intr: Option<Cell>)
      requires Valid()
      modifies `waiting, `applied, `answered, interrupts, waiting
      ensures Valid() && forall x :: x in waiting ==> x in old(waiting)
      ensures (View(), found) == CheckInterrupt(old(View()), unique)
      ensures intr.Some? ==> answered == old(answered) + {intr.value.id}
    {
      hide Linked, FindPending, Ids;
      intr := None;
      var curr, k := SearchWaiting(unique);
      found := curr != interrupts;
      if found {
        TakeWaiting(curr, k);
        applied := applied + {curr.id};
      } else {
        NextIsFirst(interrupts, waiting);
        curr := interrupts.next;
        if curr != interrupts {
          TakeWaiting(curr, 0);
          answered := answered + {curr.id};
          intr := Some(curr);
          assert View().interrupts == old(View()).interrupts[1..];
        }
      }
    }

    /** check_interrupt and list_add_req, under se->lock. */
    method ArriveLocked(c: Cell, unique: nat) returns (intr: Option<Cell>)
      requires Valid() && c != list && c != interrupts && c !in live && c !in waiting
      requires Enabled(View(), Arrive(c.id, unique))
      modifies this, c, list, live, interrupts, waiting
      ensures Valid() && View() == Next(old(View()), Arrive(c.id, unique))
      ensures intr.Some? ==> answered == old(answered) + {intr.value.id}
    {
      hide Linked, FindPending, CheckInterrupt, Ids;
      var found;
      found, intr := Check(unique);
      AddLive(c, Fresh(unique, found));
    }

    /** do_interrupt, up to where find_interrupted first lets go of se->lock; true if the
        INTERRUPT itself can be destroyed when it has been dealt with. */
    method InterruptLocked(c: Cell, unique: nat) returns (done: bool)
      requires Valid() && c != list && c != interrupts && c !in live && c !in waiting && c.id !in target
      requires Enabled(View(), Interrupt(c.id, unique))
      modifies this, c, interrupts, waiting
      ensures Valid() && View() == Next(old(View()), Interrupt(c.id, unique))
      ensures done <==> c !in waiting
    {
      hide Linked, Find, FindPending;
      var r := Search(unique);
      if r != list {
        reqs := reqs[r.id := reqs[r.id].(ctr := reqs[r.id].ctr + 1)];
        handling := handling[c.id := Pinned(r.id)];
        return true;
      }
      var duplicate, k := SearchWaiting(unique);
      if duplicate != interrupts {
        dropped := dropped + {c.id};
        return true;
      }
      AddWaiting(c, unique);
      return false;
    }

    /** fuse_free_req under se->lock; true if the caller is to destroy the request. */
    method FreeLocked(c: Cell, ghost k: nat) returns (last: bool)
      requires Valid() && k < |live| && live[k] == c && Distinct(Ids(live)) && Enabled(View(), Free(c.id))
      modifies this, list, live
      ensures Valid() && View() == Next(old(View()), Free(c.id)) && last == reqs[c.id].dying
    {
      hide Linked, Ids, Remove, Distinct;
      var q := reqs[c.id].(func := false);
      Neighbours(list, live, k);
      ListDel(c, list, live, k);
      IdsWithout(live, k);
      assert forall x :: x in Without(live, k) ==> x in live;
      live := Without(live, k);
      q := q.(ctr := q.ctr - 1, freed := true);
      last := q.ctr == 0;
      reqs := reqs[c.id := q.(dying := last)];
    }
  }

  lemma IdsWithout(s: seq<Cell>, k: nat)
    requires k < |s| && Distinct(Ids(s))
    ensures Ids(Without(s, k)) == Remove(Ids(s), s[k].id)
  {
    RemoveAt(Ids(s), k);
    assert Ids(Without(s, k)) == Without(Ids(s), k);
  }

  lemma NoneTwice(head: Cell, s: seq<Cell>)
    requires Linked(head, s)
    ensures forall i, j :: 0 <= i < j < |s| ==> s[i] != s[j]
  {
  }
}
