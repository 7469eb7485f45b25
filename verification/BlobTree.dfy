/** Any tree of attributes can be written with the operations of blob.c and read back with its loops. */
module BlobTree {
  import opened Common
  import opened Bytes
  import opened Blob
  import opened BlobBuf

  lemma NestSize(a: Attr)
    requires a.Nest? && Fours(|a.front|)
    ensures |Encode(a)| == 4 + |a.front| + |EncodeAll(a.kids)|
  {
    EncodeAllAligned(a.kids);
    SumAligned(|a.front|, |EncodeAll(a.kids)|);
    FourMore(|a.front + EncodeAll(a.kids)|);
    PadAligned(4 + |a.front + EncodeAll(a.kids)|);
  }

  /** Opens a nested attribute, with some bytes in front if it has any. */
  method Open(b: Buffer, id: nat, front: seq<byte>) returns (cookie: nat)
    requires b.Valid() && id < 256 && Fours(|front|) && b.Size() + (4 + |front|) < MAX_LEN
    modifies b
    ensures b.Valid() && b.below == old(b.below) + [old(b.top)] && b.top == Frame(id, front, [])
    ensures cookie == old(b.head)
    ensures b.Size() == old(b.Size()) + (4 + |front|)
  {
    if front == [] {
      cookie := b.NestStart(id);
    } else {
      cookie := b.NestStartWith(id, front);
    }
  }

  /** Writes a tree with blob_put, blob_nest_start and blob_nest_end. */
  method Write(b: Buffer, a: Attr)
    requires b.Valid() && Sized(a) && b.Size() + |Encode(a)| < MAX_LEN
    modifies b
    ensures b.Valid() && b.below == old(b.below) && b.top == old(b.top).(kids := old(b.top).kids + [a])
    ensures b.Size() == old(b.Size()) + |Encode(a)|
    decreases a, 1
  {
    match a
    case Leaf(id, payload) => b.Put(id, payload);
    case Nest(id, front, kids) =>
      ghost var below := b.below;
      NestSize(a);
      var cookie := Open(b, id, front);
      WriteAll(b, kids);
      assert b.below[..|b.below| - 1] == below && [] + kids == kids;
      b.NestEnd(cookie);
  }

  method WriteAll(b: Buffer, kids: seq<Attr>)
    requires b.Valid() && AllSized(kids) && b.Size() + |EncodeAll(kids)| < MAX_LEN
    modifies b
    ensures b.Valid() && b.below == old(b.below) && b.top == old(b.top).(kids := old(b.top).kids + kids)
    ensures b.Size() == old(b.Size()) + |EncodeAll(kids)|
    decreases kids, 0
  {
    if kids == [] {
      assert b.top.kids + [] == b.top.kids;
      return;
    }
    ghost var before := b.top.kids;
    Write(b, kids[0]);
    assert forall k <- kids[1..] :: k in kids;
    WriteAll(b, kids[1..]);
    Associates(before, [kids[0]], kids[1..]);
    assert [kids[0]] + kids[1..] == kids;
  }

  /** Attributes written into a new buffer are seen by a reader that iterates over its first attribute: the same tree,
      with the exact unpadded payloads. */
  method RoundTrip(id: nat, kids: seq<Attr>) returns (b: Buffer)
    requires id < 256 && AllSized(kids) && 4 + |EncodeAll(kids)| < MAX_LEN
    ensures |b.mem| >= 4 && 4 <= RawLen(b.mem) <= |b.mem| && ShowsAll(Items(b.mem[4..RawLen(b.mem)]), kids)
  {
    b := new Buffer(id);
    WriteAll(b, kids);
    assert [] + kids == kids && [] + EncodeAll(kids) == EncodeAll(kids);
    b.Root();
    ShowsAllEncoded(kids);
  }
}
