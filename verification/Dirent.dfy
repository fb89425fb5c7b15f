/** lib/fuse_lowlevel.c, include/fuse_kernel.h: directory entries as they lie in a reply buffer,
    with fuse_entry_out in front (readdirplus) or without it. */
module Dirent {
  import opened Options
  import opened Storage
  import opened LittleEndian

  const NAME_OFFSET := 24        // FUSE_NAME_OFFSET
  const ENTRY_OUT := 128         // sizeof(struct fuse_entry_out)

  /** out: the bytes of fuse_entry_out, or none. */
  datatype Entry = Entry(out: seq<Byte>, ino: nat, off: nat, kind: nat, name: seq<Byte>)

  /** The fields are as wide as the structs say. */
  ghost predicate Fields(h: nat, e: Entry) {
    && |e.out| == h && e.ino < Pow256(8) && e.off < Pow256(8) && e.kind < Pow256(4) && |e.name| < Pow256(4)
  }

  /** FUSE_DIRENT_ALIGN */
  function Align(n: nat): (r: nat)
    ensures n <= r < n + 8 && r % 8 == 0
  {
    (n + 7) / 8 * 8
  }

  function RecordSize(h: nat, namelen: nat): nat { h + Align(NAME_OFFSET + namelen) }

  function Zeros(n: nat): (r: seq<Byte>)
    ensures |r| == n
  {
    seq(n, _ => 0)
  }

  function Padding(namelen: nat): nat { Align(NAME_OFFSET + namelen) - NAME_OFFSET - namelen }

  function Header(e: Entry): (r: seq<Byte>)
    ensures |r| == NAME_OFFSET
  {
    Encode(e.ino, 8) + Encode(e.off, 8) + Encode(|e.name|, 4) + Encode(e.kind, 4)
  }

  function Record(e: Entry): (r: seq<Byte>)
    ensures |r| == RecordSize(|e.out|, |e.name|)
  {
    e.out + Header(e) + e.name + Zeros(Padding(|e.name|))
  }

  function Records(es: seq<Entry>): seq<Byte> {
    if es == [] then [] else Record(es[0]) + Records(es[1..])
  }

  /** How the kernel reads such a buffer; None if it is malformed. */
  function Parse(h: nat, b: seq<Byte>): Option<seq<Entry>>
    decreases |b|
  {
    if b == [] then Some([])
    else if |b| < h + NAME_OFFSET then None
    else
      var namelen := Decode(b[h + 16..h + 20]);
      var size := RecordSize(h, namelen);
      if |b| < size then None
      else
        var e := Entry(b[..h], Decode(b[h..h + 8]), Decode(b[h + 8..h + 16]), Decode(b[h + 20..h + 24]),
                       b[h + NAME_OFFSET..h + NAME_OFFSET + namelen]);
        match Parse(h, b[size..])
        case None => None
        case Some(rest) => Some([e] + rest)
  }

  lemma Middle<T>(x: seq<T>, y: seq<T>, z: seq<T>)
    ensures (x + y + z)[|x|..|x| + |y|] == y
  {
  }

  lemma HeaderFields(e: Entry)
    ensures var r := Header(e);
            && r[0..8] == Encode(e.ino, 8) && r[8..16] == Encode(e.off, 8)
            && r[16..20] == Encode(|e.name|, 4) && r[20..24] == Encode(e.kind, 4)
  {
  }

  lemma Slide(x: seq<Byte>, y: seq<Byte>, z: seq<Byte>, i: nat, j: nat)
    requires i <= j <= |y|
    ensures (x + y + z)[|x| + i..|x| + j] == y[i..j]
  {
  }

  lemma ParseRecord(h: nat, e: Entry, rest: seq<Byte>)
    requires Fields(h, e)
    ensures var b := Record(e) + rest;
            && |b| >= h + NAME_OFFSET && b[..h] == e.out
            && Decode(b[h..h + 8]) == e.ino && Decode(b[h + 8..h + 16]) == e.off
            && Decode(b[h + 16..h + 20]) == |e.name| && Decode(b[h + 20..h + 24]) == e.kind
            && b[h + NAME_OFFSET..h + NAME_OFFSET + |e.name|] == e.name
            && b[RecordSize(h, |e.name|)..] == rest
  {
    hide Encode, Decode, Header, Zeros;
    var r, pad := Header(e), Zeros(Padding(|e.name|));
    var b := Record(e) + rest;
    var tail := e.name + pad + rest;
    assert b == e.out + r + tail;
    Slide(e.out, r, tail, 0, 8);
    Slide(e.out, r, tail, 8, 16);
    Slide(e.out, r, tail, 16, 20);
    Slide(e.out, r, tail, 20, 24);
    HeaderFields(e);
    DecodeEncode(e.ino, 8);
    DecodeEncode(e.off, 8);
    DecodeEncode(|e.name|, 4);
    DecodeEncode(e.kind, 4);
    assert b == (e.out + r) + e.name + (pad + rest);
    Middle(e.out + r, e.name, pad + rest);
  }

  /** Parsing a buffer of records gives the entries back, in order and unchanged. */
  lemma {:induction false} ParseRecords(h: nat, es: seq<Entry>)
    requires forall k :: 0 <= k < |es| ==> Fields(h, es[k])
    ensures Parse(h, Records(es)) == Some(es)
  {
    hide Encode, Decode, Record, Fields;
    if es != [] {
      ParseRecord(h, es[0], Records(es[1..]));
      ParseRecords(h, es[1..]);
      assert Record(es[0]) + Records(es[1..]) == Records(es);
      assert es[0] == Entry(es[0].out, es[0].ino, es[0].off, es[0].kind, es[0].name) && [es[0]] + es[1..] == es;
    }
  }

  lemma RecordAligned(e: Entry)
    ensures |Record(e)| % 8 == |e.out| % 8
  {
    var a := Align(NAME_OFFSET + |e.name|);
    assert (|e.out| + a) % 8 == |e.out| % 8 by { AddMultiple(|e.out|, a); }
  }

  lemma AddMultiple(n: nat, a: nat)
    requires a % 8 == 0
    ensures (n + a) % 8 == n % 8
  {
  }

  /** Every record starts at a multiple of 8 if fuse_entry_out does. */
  lemma {:induction false} RecordsAligned(h: nat, es: seq<Entry>)
    requires h % 8 == 0 && forall k :: 0 <= k < |es| ==> |es[k].out| == h
    ensures |Records(es)| % 8 == 0
  {
    hide RecordSize, Record, Align;
    if es != [] {
      RecordsAligned(h, es[1..]);
      RecordAligned(es[0]);
      assert |Records(es)| == |Record(es[0])| + |Records(es[1..])|;
    }
  }

  lemma {:induction false} RecordsSnoc(es: seq<Entry>, e: Entry)
    ensures Records(es + [e]) == Records(es) + Record(e)
  {
    hide Record;
    if es == [] {
      assert [e][1..] == [] && Records([]) == [];
    } else {
      RecordsSnoc(es[1..], e);
      assert (es + [e])[1..] == es[1..] + [e];
    }
  }

  // ---- the two functions, in place ----

  /** s with b in place of what was at position p. */
  function Paste(s: seq<Byte>, p: nat, b: seq<Byte>): (r: seq<Byte>)
    requires p + |b| <= |s|
    ensures |r| == |s|
  {
    s[..p] + b + s[p + |b|..]
  }

  lemma PasteNext(s: seq<Byte>, p: nat, a: seq<Byte>, b: seq<Byte>)
    requires p + |a| + |b| <= |s|
    ensures Paste(Paste(s, p, a), p + |a|, b) == Paste(s, p, a + b)
  {
  }

  /** memcpy into the buffer. */
  method Copy(buf: array<Byte>, p: nat, bytes: seq<Byte>)
    requires p + |bytes| <= buf.Length
    modifies buf
    ensures buf[..] == Paste(old(buf[..]), p, bytes)
  {
    var k := 0;
    while k < |bytes|
      invariant k <= |bytes|
      invariant buf[..p] == old(buf[..p]) && buf[p..p + k] == bytes[..k] && buf[p + k..] == old(buf[p + k..])
    {
      buf[p + k] := bytes[k];
      k := k + 1;
    }
    assert buf[..] == buf[..p] + buf[p..p + k] + buf[p + k..];
  }

  /** fuse_add_direntry and fuse_add_direntry_plus at position p of the buffer, of which rem
      bytes are left: the size of the record, which is stored exactly if it fits. */
  method AddDirentry(buf: array<Byte>, p: nat, rem: nat, e: Entry) returns (size: nat)
    requires p + rem <= buf.Length
    modifies buf
    ensures size == |Record(e)|
    ensures buf[..] == if size <= rem then Paste(old(buf[..]), p, Record(e)) else old(buf[..])
  {
    hide Encode, Zeros, Header, Paste;
    size := RecordSize(|e.out|, |e.name|);
    if size > rem { return; }
    ghost var was := buf[..];
    var q := p;
    Copy(buf, q, e.out);
    q := q + |e.out|;
    Copy(buf, q, Header(e));
    PasteNext(was, p, e.out, Header(e));
    q := q + NAME_OFFSET;
    Copy(buf, q, e.name);
    PasteNext(was, p, e.out + Header(e), e.name);
    q := q + |e.name|;
    Copy(buf, q, Zeros(Padding(|e.name|)));
    PasteNext(was, p, e.out + Header(e) + e.name, Zeros(Padding(|e.name|)));
  }
}
