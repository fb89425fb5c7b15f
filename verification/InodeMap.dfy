/** example/passthrough_hp.cc: the same table as the program keeps it, a map from inode numbers
    to objects whose addresses are the node ids.  Each handler does the step of InodeTable that
    it stands for. */
module InodeMap {
  import opened InodeTable
  import opened Options

  /** struct Inode. */
  class Node {
    var fd: Fd
    var src: SrcId
    var gen: nat
    var nopen: nat
    var nlookup: nat
    ghost const addr: Ptr
    ghost var of: nat
    ghost const first: nat
    ghost const life: nat
    ghost var owed: nat

    constructor (s: SrcId, ghost p: Ptr, ghost f: nat, ghost l: nat)
      ensures Value() == Inode(p, s, Unset, 0, 0, 0, 0, f, l, 0)
    {
      fd, src, gen, nopen, nlookup := Unset, s, 0, 0, 0;
      addr, life, of, first, owed := p, l, 0, f, 0;
    }

    ghost function Value(): Inode
      reads this
    {
      Inode(addr, src, fd, gen, nlookup, nopen, of, first, life, owed)
    }

    method Gen() returns (g: nat)
      ensures g == Value().gen
    {
      g := gen;
    }

    /** The last part of do_lookup: inc is the file that has the number now. */
    method Take(id: SrcId, ghost inc: nat)
      requires Value().src == id
      modifies this
      ensures Value() ==
              old(Value()).(nlookup := old(Value()).nlookup + 1, fd := Open,
                            of := if old(Value()).fd == Open then old(Value()).of else inc)
    {
      if fd == Open {
        nlookup := nlookup + 1;
      } else {
        src := id;
        nlookup := nlookup + 1;
        fd := Open;
        of := inc;
      }
    }

    method Count()
      modifies `nlookup
      ensures Value() == old(Value()).(nlookup := old(Value()).nlookup + 1)
    {
      nlookup := nlookup + 1;
    }

    /** A lookup has gone astray. */
    ghost method Owe()
      modifies `owed
      ensures Value() == old(Value()).(owed := old(Value()).owed + 1)
    {
      owed := owed + 1;
    }

    /** The part of sfs_unlink between do_lookup and unlinkat; nobody is told of the lookup. */
    method Unlink(last: bool)
      requires Value().fd == Open
      modifies this
      ensures Value() == Unlinked(old(Value()), last).(owed := old(Value()).owed + 1)
    {
      if last && fd == Open && nopen == 0 {
        fd := Gone;
        gen := gen + 1;
      }
      owed := owed + 1;
    }
  }

  // What the steps of InodeTable come to.

  lemma LookupStep(s: InodeTable.Fs, id: SrcId, p: Ptr, delivered: bool)
    requires Enabled(s, Lookup(id, p, delivered))
    ensures Next(s, Lookup(id, p, delivered)) ==
            var u := s.(table := s.table[id := Taken(s, id, p)], lives := Grown(s, id));
            Answered(u, id, Taken(s, id, p), Told(Taken(s, id, p)), delivered)
  {
    var t := Taken(s, id, p);
    var f := if delivered then t else t.(owed := t.owed + 1);
    assert s.table[id := t][id := f] == s.table[id := f];
  }

  lemma LinkStep(s: InodeTable.Fs, id: SrcId, delivered: bool)
    requires Enabled(s, Link(id, delivered))
    ensures Next(s, Link(id, delivered)) ==
            var t := s.table[id].(nlookup := s.table[id].nlookup + 1);
            Answered(s.(table := s.table[id := t]), id, t, ToldLink(t), delivered)
  {
    var t := s.table[id].(nlookup := s.table[id].nlookup + 1);
    var f := if delivered then t else t.(owed := t.owed + 1);
    assert s.table[id := t][id := f] == s.table[id := f];
  }

  lemma UnlinkStep(s: InodeTable.Fs, id: SrcId, p: Ptr, last: bool)
    requires Enabled(s, InodeTable.Unlink(id, p, last))
    ensures Next(s, InodeTable.Unlink(id, p, last)) ==
            var u := s.(table := s.table[id := Taken(s, id, p)], lives := Grown(s, id));
            u.(table := u.table[id := Unlinked(Taken(s, id, p), last).(owed := Taken(s, id, p).owed + 1)])
  {
    var t := Taken(s, id, p);
    var f := Unlinked(t, last).(owed := t.owed + 1);
    assert s.table[id := t][id := f] == s.table[id := f];
  }

  lemma ForgetKeepsKernel(s: InodeTable.Fs, p: Ptr, n: nat)
    ensures ForgetOne(s, p, n).kernel == s.kernel
  {
  }

  lemma TakenOpen(s: InodeTable.Fs, id: SrcId, p: Ptr)
    ensures Taken(s, id, p).fd == Open
  {
  }

  class Fs {
    var inodes: map<SrcId, Node>
    ghost var state: InodeTable.Fs

    /** The table of the abstract state is what the objects hold, each filed under its number. */
    ghost predicate Valid()
      reads this, inodes.Values
    {
      && inodes.Keys == state.table.Keys
      && (forall id :: id in inodes ==> inodes[id].Value() == state.table[id] && state.table[id].src == id)
    }

    constructor ()
      ensures Valid() && state == EMPTY
    {
      inodes, state := map[], EMPTY;
    }

    /** do_lookup, once openat and fstatat have found the number; a new object would be at p. */
    method DoLookup(id: SrcId, ghost p: Ptr) returns (node: Node, gen: nat)
      requires Valid()
      modifies this, inodes.Values
      ensures Valid() && inodes == old(inodes)[id := node] && gen == state.table[id].gen
      ensures if id in old(inodes) then node == old(inodes[id]) else fresh(node)
      ensures state == old(state).(table := old(state).table[id := Taken(old(state), id, p)],
                                   lives := Grown(old(state), id))
    {
      hide Node.Value;
      if id in inodes {
        node := inodes[id];
      } else {
        node := new Node(id, p, Inc(state.inc, id), state.lives);
        inodes := inodes[id := node];
      }
      gen := node.Gen();
      node.Take(id, Inc(state.inc, id));
      state := state.(table := state.table[id := Taken(state, id, p)], lives := Grown(state, id));
    }

    /** What becomes of a reply for the object filed under id. */
    ghost method Answer(id: SrcId, node: Node, reply: Reply, delivered: bool)
      requires Valid() && id in inodes && inodes[id] == node
      modifies `state, node`owed
      ensures Valid() && state == Answered(old(state), id, old(node.Value()), reply, delivered)
    {
      hide Node.Value;
      state := Answered(state, id, node.Value(), reply, delivered);
      if !delivered { node.Owe(); }
    }

    /** sfs_lookup: do_lookup, and the reply, which may not get through. */
    method SfsLookup(id: SrcId, ghost p: Ptr, ghost delivered: bool) returns (gen: nat)
      requires Valid() && Enabled(state, Lookup(id, p, delivered))
      modifies this, inodes.Values
      ensures Valid() && state == Next(old(state), Lookup(id, p, delivered))
      ensures gen == Taken(old(state), id, p).gen
    {
      hide Node.Value, Taken, Next, Enabled, Answered;
      LookupStep(state, id, p, delivered);
      var node;
      node, gen := DoLookup(id, p);
      Answer(id, node, Told(node.Value()), delivered);
    }

    /** sfs_link, when linkat and fstatat have succeeded. */
    method SfsLink(id: SrcId, ghost delivered: bool)
      requires Valid() && Enabled(state, Link(id, delivered))
      modifies this, inodes.Values
      ensures Valid() && state == Next(old(state), Link(id, delivered))
    {
      hide Node.Value, Next, Answered;
      LinkStep(state, id, delivered);
      var node := inodes[id];
      node.Count();
      state := state.(table := state.table[id := node.Value()]);
      Answer(id, node, ToldLink(node.Value()), delivered);
    }

    /** sfs_unlink with a zero timeout, up to unlinkat. */
    method SfsUnlink(id: SrcId, ghost p: Ptr, last: bool)
      requires Valid() && Enabled(state, InodeTable.Unlink(id, p, last))
      modifies this, inodes.Values
      ensures Valid() && state == Next(old(state), InodeTable.Unlink(id, p, last))
    {
      hide Node.Value, Taken, Next, Enabled;
      UnlinkStep(state, id, p, last);
      TakenOpen(state, id, p);
      var node, gen := DoLookup(id, p);
      node.Unlink(last);
      state := state.(table := state.table[id := node.Value()]);
    }

    /** forget_one, for an object that is in the table at its address: neither abort is taken,
        and the entry that is erased by number is its own. */
    method ForgetOne(node: Node, n: nat)
      requires Valid() && node.src in inodes && inodes[node.src] == node && At(state, node.addr) == Some(node.src)
      requires node.fd != Unset && n <= node.nlookup
      modifies this, node
      ensures Valid() && state == InodeTable.ForgetOne(old(state), node.addr, n)
      ensures inodes == (if old(node.nlookup) == n then old(inodes) - {node.src} else old(inodes)) &&
              node.src == old(node.src)
    {
      hide At, Live;
      node.nlookup := node.nlookup - n;
      if node.nlookup == 0 {
        inodes := inodes - {node.src};
      }
      state := InodeTable.ForgetOne(state, node.addr, n);
    }

    /** sfs_readdirplus: the lookup of an entry that then does not fit is given back. */
    method LookupAndForget(id: SrcId, ghost p: Ptr)
      requires Valid() && Table(state) && Enabled(state, Undo(id, p))
      modifies this, inodes.Values
      ensures Valid() && state == Next(old(state), Undo(id, p))
    {
      hide Table, At, Live;
      var node, gen := DoLookup(id, p);
      OnlyAt(old(state), state, id);
      ForgetOne(node, 1);
    }

    /** sfs_forget: what the kernel forgets it was given, so the object is there. */
    method SfsForget(node: Node, n: nat)
      requires Valid() && Table(state) && node.src in inodes && inodes[node.src] == node
      requires Enabled(state, Forget(node.addr, n))
      modifies this, node
      ensures Valid() && state == Next(old(state), Forget(node.addr, n)) && node.src == old(node.src)
      ensures inodes == old(inodes) || inodes == old(inodes) - {node.src}
    {
      hide Table, At, Live, InodeTable.ForgetOne;
      EntrySound(state, node.src);
      ForgetKeepsKernel(state, node.addr, n);
      ForgetOne(node, n);
      state := state.(kernel := state.kernel[node.addr := Held(state.kernel, node.addr) - n]);
    }

    /** sfs_forget_multi: the loop does the forgets one after the other, whatever their order
        and however often they name one object.  What the kernel holds goes down by what the
        message gives back, and no object is used after it was erased. */
    method SfsForgetMulti(forgets: seq<(Node, nat)>)
      requires Valid() && Table(state)
      requires forall k :: 0 <= k < |forgets| ==> forgets[k].0 in inodes.Values && forgets[k].1 > 0
      requires forall p :: Total(forgets, p) <= Held(state.kernel, p)
      modifies this, inodes.Values
      ensures Valid() && Table(state) && Trace(old(state), Forgets(forgets), state)
      ensures forall p :: Held(state.kernel, p) == Held(old(state).kernel, p) - Total(forgets, p)
    {
      hide Table, Next, Enabled, Total, Forgets, Held, Live, Node.Value;
      ghost var was, filed := state, inodes;
      DistinctAddresses();
      assert forgets[..0] == [] && forgets[0..] == forgets;
      NoForgets();
      var k := 0;
      while k < |forgets|
        invariant k <= |forgets| && Valid() && Table(state) && Trace(was, Forgets(forgets[..k]), state)
        invariant inodes.Keys <= filed.Keys && forall id :: id in inodes ==> inodes[id] == filed[id]
        invariant forall p :: Held(state.kernel, p) == Held(was.kernel, p) - Total(forgets, p) + Total(forgets[k..], p)
      {
        var node, n := forgets[k].0, forgets[k].1;
        assert forgets[k..][0] == forgets[k] && forgets[k..][1..] == forgets[k + 1..];
        TotalNext(forgets[k..]);
        ghost var s := state;
        assert Held(s.kernel, node.addr) >= n;
        ForgetEnabled(s, node.addr, n);
        StillFiled(filed, node);
        SfsForget(node, n);
        ForgetsNext(was, forgets, k, s);
        StepCounts(s, Forget(node.addr, n));
        HeldAfter(s, node.addr, n);
        k := k + 1;
      }
      assert forgets[..k] == forgets && forgets[k..] == [];
      NoForgets();
    }

    /** Objects in the table have different addresses. */
    lemma DistinctAddresses()
      requires Valid() && Table(state)
      ensures forall a, b :: a in inodes && b in inodes && a != b ==> inodes[a].addr != inodes[b].addr
    {
      forall a, b | a in inodes && b in inodes && a != b ensures inodes[a].addr != inodes[b].addr {
        assert state.table[a].ptr == inodes[a].addr && state.table[b].ptr == inodes[b].addr;
      }
    }

    /** What the kernel still holds is still there. */
    lemma StillFiled(filed: map<SrcId, Node>, node: Node)
      requires Valid() && Table(state) && Held(state.kernel, node.addr) > 0 && node in filed.Values
      requires forall id :: id in inodes ==> id in filed && inodes[id] == filed[id]
      requires forall a, b :: a in filed && b in filed && a != b ==> filed[a].addr != filed[b].addr
      ensures node.src in inodes && inodes[node.src] == node
    {
      HeldIsLive(state, node.addr);
      var id :| id in state.table && state.table[id].ptr == node.addr;
      assert inodes[id].addr == node.addr;
    }
  }

  /** What forgets give back of the object at p. */
  ghost function Total(forgets: seq<(Node, nat)>, p: Ptr): nat {
    if forgets == [] then 0
    else (if forgets[0].0.addr == p then forgets[0].1 else 0) + Total(forgets[1..], p)
  }

  ghost function Forgets(forgets: seq<(Node, nat)>): seq<Event> {
    if forgets == [] then []
    else Forgets(forgets[..|forgets| - 1]) + [Forget(forgets[|forgets| - 1].0.addr, forgets[|forgets| - 1].1)]
  }

  lemma NoForgets()
    ensures Forgets([]) == [] && forall p :: Total([], p) == 0
  {
  }

  lemma TotalNext(forgets: seq<(Node, nat)>)
    requires forgets != []
    ensures forall p ::
              Total(forgets, p) == (if forgets[0].0.addr == p then forgets[0].1 else 0) + Total(forgets[1..], p)
  {
  }

  lemma ForgetEnabled(s: InodeTable.Fs, p: Ptr, n: nat)
    requires 0 < n <= Held(s.kernel, p)
    ensures Enabled(s, Forget(p, n))
  {
  }

  lemma HeldAfter(s: InodeTable.Fs, p: Ptr, n: nat)
    requires Enabled(s, Forget(p, n))
    ensures forall q :: Held(Next(s, Forget(p, n)).kernel, q) == Held(s.kernel, q) - if q == p then n else 0
  {
    hide ForgetOne;
    ForgetKeepsKernel(s, p, n);
  }

  lemma ForgetsNext(s: InodeTable.Fs, forgets: seq<(Node, nat)>, k: nat, t: InodeTable.Fs)
    requires k < |forgets| && Trace(s, Forgets(forgets[..k]), t)
    requires Enabled(t, Forget(forgets[k].0.addr, forgets[k].1))
    ensures Trace(s, Forgets(forgets[..k + 1]), Next(t, Forget(forgets[k].0.addr, forgets[k].1)))
  {
    hide Enabled, Next, Trace;
    assert forgets[..k + 1][..k] == forgets[..k];
    OneMore(s, Forgets(forgets[..k]), t, Forget(forgets[k].0.addr, forgets[k].1));
  }
}
