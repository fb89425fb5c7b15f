/** The circular doubly linked lists of libfuse: of workers in lib/fuse_loop_mt.c, and of
    requests in lib/fuse_lowlevel.c, which have the same code. */
module Ring {

  /** struct fuse_worker or struct fuse_req, as far as it is linked; the head of a list is one. */
  class Cell {
    const id: nat
    var prev: Cell
    var next: Cell

    constructor (t: nat)
      ensures id == t && prev == this && next == this
    {
      id, prev, next := t, this, this;
    }
  }

  /** Position i of the ring: head at both ends, s between them. */
  ghost function At(head: Cell, s: seq<Cell>, i: nat): (w: Cell)
    ensures w == head || w in s
  {
    if 1 <= i <= |s| then s[i - 1] else head
  }

  ghost predicate Link(a: Cell, b: Cell)
    reads a, b
  {
    a.next == b && b.prev == a
  }

  /** The cells s hang on head, in this order and in both directions. */
  ghost predicate Linked(head: Cell, s: seq<Cell>)
    reads head, s
  {
    && (forall i :: 0 <= i < |s| ==> s[i] != head)
    && (forall i, j :: 0 <= i < j < |s| ==> s[i] != s[j])
    && (forall i: nat :: i <= |s| ==> Link(At(head, s, i), At(head, s, i + 1)))
  }

  /** list_add_worker and list_add_req, before the head. */
  method ListAdd(w: Cell, head: Cell, ghost s: seq<Cell>)
    requires Linked(head, s) && w != head && w !in s
    modifies w, head`prev, head.prev`next
    ensures Linked(head, s + [w])
  {
    ghost var t := s + [w];
    assert Link(At(head, s, |s|), At(head, s, |s| + 1));
    assert forall i: nat :: i <= |s| ==> At(head, t, i) == At(head, s, i);
    assert At(head, t, |t|) == w && At(head, t, |t| + 1) == head;
    var prev := head.prev;
    assert prev == At(head, s, |s|);
    w.next := head;
    w.prev := prev;
    prev.next := w;
    head.prev := w;
    forall i: nat | i <= |t| ensures Link(At(head, t, i), At(head, t, i + 1)) {
      if i < |s| { assert old(Link(At(head, s, i), At(head, s, i + 1))); }
    }
  }

  /** list_del_worker and list_del_req. */
  method ListDel(w: Cell, ghost head: Cell, ghost s: seq<Cell>, ghost k: nat)
    requires Linked(head, s) && k < |s| && s[k] == w
    modifies w.prev`next, w.next`prev
    ensures Linked(head, s[..k] + s[k + 1..])
  {
    ghost var r := s[..k] + s[k + 1..];
    assert Link(At(head, s, k), At(head, s, k + 1)) && Link(At(head, s, k + 1), At(head, s, k + 2));
    var prev, next := w.prev, w.next;
    assert prev == At(head, s, k) && next == At(head, s, k + 2);
    prev.next := next;
    next.prev := prev;
    forall i: nat | i <= |r| ensures Link(At(head, r, i), At(head, r, i + 1)) {
      if i < k { assert old(Link(At(head, s, i), At(head, s, i + 1))); }
      else if i > k { assert old(Link(At(head, s, i + 1), At(head, s, i + 2))); }
    }
  }

  ghost function Ids(s: seq<Cell>): (r: seq<nat>)
    ensures |r| == |s|
  {
    seq(|s|, i requires 0 <= i < |s| => s[i].id)
  }

  lemma NextIsFirst(head: Cell, s: seq<Cell>)
    requires Linked(head, s)
    ensures head.next == head <==> s == []
    ensures s != [] ==> s[0] == head.next
    ensures s == [] ==> Ids(s) == []
  {
    assert Link(At(head, s, 0), At(head, s, 1));
  }

  lemma LastIsPrev(head: Cell, s: seq<Cell>)
    requires Linked(head, s)
    ensures head.prev == if s == [] then head else s[|s| - 1]
  {
    assert Link(At(head, s, |s|), At(head, s, |s| + 1));
  }

  lemma Neighbours(head: Cell, s: seq<Cell>, k: nat)
    requires Linked(head, s) && k < |s|
    ensures s[k].prev == head || s[k].prev in s
    ensures s[k].next == head || s[k].next in s
  {
    assert Link(At(head, s, k), At(head, s, k + 1)) && Link(At(head, s, k + 1), At(head, s, k + 2));
  }

  lemma FirstId(s: seq<Cell>)
    requires s != []
    ensures Ids(s) == [s[0].id] + Ids(s[1..])
  {
  }

  ghost function Elems(s: seq<Cell>): set<Cell> { set w | w in s }
}
