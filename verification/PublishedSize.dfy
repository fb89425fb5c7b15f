/** f3.cc: the size of an ID file, kept up to date by its writes, published when it is released,
    and read back by the consumer that opens it. */
module PublishedSize {
  import opened Storage
  import opened Decimal

  datatype Write = Write(off: nat, bytes: seq<Byte>)

  function End(w: Write): nat { w.off + |w.bytes| }

  function FileAfter(data: seq<Byte>, ws: seq<Write>): seq<Byte>
    decreases |ws|
  {
    if ws == [] then data else FileAfter(Overlay(data, ws[0].off, ws[0].bytes), ws[1..])
  }

  function Max(a: nat, b: nat): nat { if a >= b then a else b }

  function SizeAfter(size: nat, ws: seq<Write>): nat
    decreases |ws|
  {
    if ws == [] then size else SizeAfter(Max(size, End(ws[0])), ws[1..])
  }

  /** The size kept is the furthest end of all writes. */
  lemma {:induction false} SizeIsFurthest(size: nat, ws: seq<Write>)
    ensures SizeAfter(size, ws) >= size && forall w :: w in ws ==> SizeAfter(size, ws) >= End(w)
    ensures SizeAfter(size, ws) == size || exists w :: w in ws && SizeAfter(size, ws) == End(w)
    decreases |ws|
  {
    if ws != [] {
      SizeIsFurthest(Max(size, End(ws[0])), ws[1..]);
      assert ws == [ws[0]] + ws[1..];
    }
  }

  /** So it does not depend on the order in which the writes come. */
  lemma AnyOrder(size: nat, ws: seq<Write>, vs: seq<Write>)
    requires multiset(ws) == multiset(vs)
    ensures SizeAfter(size, ws) == SizeAfter(size, vs)
  {
    SizeIsFurthest(size, ws);
    SizeIsFurthest(size, vs);
    assert forall w :: w in ws ==> w in multiset(vs);
    assert forall w :: w in vs ==> w in multiset(ws);
  }

  /** One write keeps the size equal to the length of the file, unless it is an empty one
      beyond the end: that moves the size and not the file. */
  lemma SizeTracksFile(data: seq<Byte>, w: Write)
    ensures Max(|data|, End(w)) == |Overlay(data, w.off, w.bytes)| <==> w.bytes != [] || w.off <= |data|
    ensures w.bytes != [] ==> |Overlay(data, w.off, w.bytes)| == Max(|data|, End(w))
  {
  }

  /** The file is as long as it was, or as the furthest end of the writes that carry something. */
  lemma {:induction false} LengthIsFurthest(data: seq<Byte>, ws: seq<Write>)
    ensures |FileAfter(data, ws)| >= |data|
    ensures forall w :: w in ws && w.bytes != [] ==> |FileAfter(data, ws)| >= End(w)
    ensures |FileAfter(data, ws)| == |data| || exists w :: w in ws && w.bytes != [] && |FileAfter(data, ws)| == End(w)
    decreases |ws|
  {
    hide Overlay;
    if ws != [] {
      SizeTracksFile(data, ws[0]);
      EmptyWrite(data, ws[0]);
      LengthIsFurthest(Overlay(data, ws[0].off, ws[0].bytes), ws[1..]);
      assert ws == [ws[0]] + ws[1..];
    }
  }

  lemma EmptyWrite(data: seq<Byte>, w: Write)
    ensures w.bytes == [] ==> Overlay(data, w.off, w.bytes) == data
  {
  }

  /** Every empty write lies within the file that the writes make. */
  ghost predicate Within(ws: seq<Write>) {
    forall w :: w in ws && w.bytes == [] ==> w.off <= |FileAfter([], ws)|
  }

  /** The size is at least the length of the file, and exactly that if and only if every empty
      write lies within the file in the end. */
  lemma SizeIsLength(ws: seq<Write>)
    ensures SizeAfter(0, ws) >= |FileAfter([], ws)|
    ensures SizeAfter(0, ws) == |FileAfter([], ws)| <==> Within(ws)
  {
    SizeIsFurthest(0, ws);
    LengthIsFurthest([], ws);
  }

  /** The consumer's target is never below the length of the producer's file, as far as a long
      goes.  It is that length if and only if a long can say it and every empty write lies
      within the file, or it is the greatest long. */
  lemma TargetIsLength(ws: seq<Write>)
    ensures var target, n := Strtol(Print(SizeAfter(0, ws))), |FileAfter([], ws)|;
            && target >= Storage.Min(n, LONG_MAX)
            && (target == n <==> n <= LONG_MAX && (Within(ws) || n == LONG_MAX))
  {
    SizeIsLength(ws);
    PrintThenRead(SizeAfter(0, ws));
  }

  /** Before anything is published, or if it does not start with a digit, the target is 0, and
      no read waits. */
  lemma UnsetTarget(attribute: string)
    requires attribute == "" || !IsDigit(attribute[0])
    ensures Strtol(attribute) == 0
  {
  }

  lemma {:induction false} Snoc(data: seq<Byte>, size: nat, ws: seq<Write>, w: Write)
    ensures FileAfter(data, ws + [w]) == Overlay(FileAfter(data, ws), w.off, w.bytes)
    ensures SizeAfter(size, ws + [w]) == Max(SizeAfter(size, ws), End(w))
    decreases |ws|
  {
    hide Overlay;
    if ws == [] {
      assert ws + [w] == [w] && [w][1..] == [];
    } else {
      Snoc(Overlay(data, ws[0].off, ws[0].bytes), Max(size, End(ws[0])), ws[1..], w);
      assert (ws + [w])[1..] == ws[1..] + [w];
    }
  }

  /** struct Inode, as do_write_buf and sfs_release use it, and all writes so far. */
  class IdInode {
    var data: seq<Byte>     // the file behind it
    var size: nat           // inode.size
    var xattr: string       // user.f3.size
    ghost var writes: seq<Write>

    ghost predicate Valid()
      reads this
    {
      data == FileAfter([], writes) && size == SizeAfter(0, writes)
    }

    constructor ()
      ensures Valid() && writes == [] && xattr == ""
    {
      data, size, xattr, writes := [], 0, "", [];
    }

    /** do_write_buf, when fuse_buf_copy has stored the bytes. */
    method DoWriteBuf(w: Write)
      requires Valid()
      modifies `data, `size, `writes
      ensures Valid() && writes == old(writes) + [w] && data == Overlay(old(data), w.off, w.bytes)
    {
      data := Overlay(data, w.off, w.bytes);
      if End(w) > size {
        size := End(w);
      }
      Snoc([], 0, writes, w);
      writes := writes + [w];
    }

    /** sfs_release of a handle that was open for writing, and the consumer's sfs_open. */
    method Publish() returns (target: nat)
      requires Valid()
      modifies `xattr
      ensures xattr == Print(SizeAfter(0, writes))
      ensures target >= Storage.Min(|data|, LONG_MAX)
      ensures target == |data| <==> |data| <= LONG_MAX && (Within(writes) || |data| == LONG_MAX)
    {
      xattr := Print(size);
      target := Strtol(xattr);
      TargetIsLength(writes);
    }
  }
}
