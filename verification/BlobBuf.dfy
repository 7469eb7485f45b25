/** The growable buffer of blob.c: attributes are written behind each other, and the lengths of the open ones
    patched. */
module BlobBuf {
  import opened Common
  import opened Bytes
  import opened Blob

  /** An attribute that is still open, with what has been put into it. */
  datatype Frame = Frame(id: nat, front: seq<byte>, kids: seq<Attr>)

  function Body(f: Frame): seq<byte> { f.front + EncodeAll(f.kids) }

  function Len(f: Frame): nat { 4 + |Body(f)| }

  /** The bytes of the frames below the innermost one. Each counts the header of the next as its own. */
  function Lower(fs: seq<Frame>): seq<byte> {
    if fs == [] then []
    else Lower(fs[..|fs| - 1]) + (Header(fs[|fs| - 1].id, Len(fs[|fs| - 1]) + 4) + Body(fs[|fs| - 1]))
  }

  ghost predicate Aligned(f: Frame) { Fours(|Body(f)|) && f.id < 256 }

  function Page(w: nat): nat { 256 * w }

  /** A multiple of 256, by which the buffer grows. */
  ghost predicate Pages(n: nat) { exists w: nat :: n == Page(w) }

  lemma MorePages(n: nat, k: nat)
    requires Pages(n)
    ensures Pages(n + Page(k))
  {
    var w: nat :| n == Page(w);
    assert n + Page(k) == Page(w + k);
  }

  lemma PagesAligned(n: nat)
    requires Pages(n)
    ensures Fours(n)
  {
    var w: nat :| n == Page(w);
    assert n == Quad(64 * w);
  }

  /** The bytes s stand at position i. Proofs that do not ask need not know more. */
  ghost predicate At(m: seq<byte>, i: nat, s: seq<byte>) {
    i + |s| <= |m| && forall z {:trigger Look(Memory, z)} :: Look(Memory, z) ==> m[i..i + |s|] == s
  }

  lemma AtSplit(m: seq<byte>, i: nat, s: seq<byte>, t: seq<byte>)
    requires At(m, i, s + t)
    ensures At(m, i, s) && At(m, i + |s|, t)
  {
    assert m[i..i + |s|] == m[i..i + |s + t|][..|s|];
    assert m[i + |s|..i + |s| + |t|] == m[i..i + |s + t|][|s|..];
  }

  lemma AtJoin(m: seq<byte>, i: nat, s: seq<byte>, t: seq<byte>)
    requires At(m, i, s) && At(m, i + |s|, t)
    ensures At(m, i, s + t)
  {
    assert m[i..i + |s + t|] == m[i..i + |s|] + m[i + |s|..i + |s| + |t|];
  }

  function Overwritten(m: seq<byte>, i: nat, s: seq<byte>): (r: seq<byte>)
    requires i + |s| <= |m|
    ensures |r| == |m| && At(r, i, s)
  {
    m[..i] + s + m[i + |s|..]
  }

  /** Writing leaves what stands elsewhere. */
  lemma OverwrittenElse(m: seq<byte>, i: nat, s: seq<byte>, k: nat, t: seq<byte>)
    requires i + |s| <= |m| && At(m, k, t) && (k + |t| <= i || i + |s| <= k)
    ensures At(Overwritten(m, i, s), k, t)
  {
  }

  lemma OverwrittenTwice(m: seq<byte>, i: nat, s: seq<byte>, t: seq<byte>)
    requires i + |s| + |t| <= |m|
    ensures Overwritten(Overwritten(m, i, s), i + |s|, t) == Overwritten(m, i, s + t)
  {
  }

  /** Changing a header leaves what stands before and behind it. */
  lemma Patched(m: seq<byte>, low: seq<byte>, h: seq<byte>, body: seq<byte>, h': seq<byte>)
    requires At(m, 0, low + (h + body)) && |h| == |h'|
    ensures |low| + |h'| <= |m| && At(Overwritten(m, |low|, h'), 0, low + (h' + body))
  {
    AtSplit(m, 0, low, h + body);
    AtSplit(m, |low|, h, body);
    OverwrittenElse(m, |low|, h', 0, low);
    OverwrittenElse(m, |low|, h', |low| + |h'|, body);
    var now := Overwritten(m, |low|, h');
    AtJoin(now, |low|, h', body);
    AtJoin(now, 0, low, h' + body);
  }

  lemma PadAligned(n: nat)
    requires Fours(n)
    ensures Pad(n) == n
  {
    var w: nat :| n == Quad(w);
  }

  lemma HeaderAt(m: seq<byte>, i: nat, id: nat, len: nat)
    requires At(m, i, Header(id, len)) && len < MAX_LEN && id < 256
    ensures RawLen(m[i..]) == len && IdOf(m[i..]) == id
  {
    assert Look(Memory, 0) && m[i..][..4] == m[i..i + 4];
    HeaderReads(id, len, m[i..]);
  }

  lemma HeaderIn(m: seq<byte>, low: seq<byte>, id: nat, len: nat, body: seq<byte>)
    requires At(m, 0, low + (Header(id, len) + body)) && len < MAX_LEN && id < 256
    ensures |low| + 4 + |body| <= |m| && RawLen(m[|low|..]) == len && IdOf(m[|low|..]) == id
  {
    AtSplit(m, 0, low, Header(id, len) + body);
    AtSplit(m, |low|, Header(id, len), body);
    HeaderAt(m, |low|, id, len);
  }

  /** The attribute at position i has the length len now; its id and every other byte are as they were. (To be looked at
      like At.) */
  ghost predicate Relength(was: seq<byte>, now: seq<byte>, i: nat, len: nat)
    requires i + 4 <= |was| == |now|
  {
    forall z {:trigger Look(Memory, z)} :: Look(Memory, z) ==>
      && (forall k :: 0 <= k < |now| && !(i < k < i + 4) ==> now[k] == was[k])
      && IdOf(now[i..]) == IdOf(was[i..]) && (len < MAX_LEN ==> RawLen(now[i..]) == len)
  }

  /** The bytes of another length, written one by one into a header. */
  lemma Relengthened(m: seq<byte>, i: nat, len: nat)
    requires i + 4 <= |m|
    ensures var a, b, c := HeaderByte(0, len, 1), HeaderByte(0, len, 2), HeaderByte(0, len, 3);
            var now := m[i + 1 := a][i + 2 := b][i + 3 := c];
            && now == Overwritten(m, i, Header(IdOf(m[i..]), len))
            && IdOf(now[i..]) == IdOf(m[i..]) && (len < MAX_LEN ==> RawLen(now[i..]) == len)
  {
    var now := m[i + 1 := HeaderByte(0, len, 1)][i + 2 := HeaderByte(0, len, 2)][i + 3 := HeaderByte(0, len, 3)];
    var h := Header(IdOf(m[i..]), len);
    assert h[0] == m[i] && h[1] == HeaderByte(0, len, 1) && h[2] == HeaderByte(0, len, 2)
           && h[3] == HeaderByte(0, len, 3);
    if len < MAX_LEN {
      HeaderAt(now, i, IdOf(m[i..]), len);
    }
  }

  /** An attribute stands complete once its payload has been copied. */
  lemma Copied(m: seq<byte>, i: nat, id: nat, payload: seq<byte>)
    requires var n := |payload|; At(m, i, Header(id, 4 + n)) && At(m, i + 4 + n, Zeros(Pad(4 + n) - 4 - n))
    ensures i + 4 + |payload| <= |m| && At(Overwritten(m, i + 4, payload), i, Padded(id, payload))
  {
    var n := |payload|;
    var zeros := Zeros(Pad(4 + n) - 4 - n);
    OverwrittenElse(m, i + 4, payload, i, Header(id, 4 + n));
    OverwrittenElse(m, i + 4, payload, i + 4 + n, zeros);
    var now := Overwritten(m, i + 4, payload);
    AtJoin(now, i, Header(id, 4 + n), payload);
    AtJoin(now, i, Header(id, 4 + n) + payload, zeros);
  }

  /** The buffer starts with the bytes of the open frames, and head is the position of the innermost one. (The
      comparison with true keeps the parts together in proofs.) */
  ghost predicate Stands(mem: seq<byte>, head: nat, id: nat, low: seq<byte>, body: seq<byte>) {
    (&& Pages(|mem|) && head == |low| && Fours(head) && Fours(|body|) && id < 256
     && At(mem, 0, low + (Header(id, 4 + |body|) + body)) && |low| + 4 + |body| < MAX_LEN) == true
  }

  /** These are the bytes of the frames. */
  ghost predicate Shapes(below: seq<Frame>, top: Frame, low: seq<byte>, body: seq<byte>) {
    (low == Lower(below) && body == Body(top) && forall f <- below :: Aligned(f)) == true
  }

  lemma ShapesMore(below: seq<Frame>, top: Frame, low: seq<byte>, body: seq<byte>, a: Attr)
    requires Shapes(below, top, low, body)
    ensures Shapes(below, top.(kids := top.kids + [a]), low, body + Encode(a))
  {
    BodyMore(top, a);
  }

  /** The same with an attribute e behind the innermost frame, which counts it already. */
  ghost predicate Behind(mem: seq<byte>, head: nat, id: nat, low: seq<byte>, body: seq<byte>, e: seq<byte>) {
    (&& Pages(|mem|) && head == |low| && Fours(head) && Fours(|body|) && id < 256 && |low| + 4 + |body| + |e| < MAX_LEN
     && At(mem, 0, low + (Header(id, 4 + |body| + |e|) + body)) && At(mem, |low| + 4 + |body|, e)) == true
  }

  /** Where the innermost frame ends. */
  lemma EndOf(mem: seq<byte>, head: nat, id: nat, low: seq<byte>, body: seq<byte>)
    requires Stands(mem, head, id, low, body)
    ensures var i := |low| + 4 + |body|; head + 4 <= |mem| && head + Pad(RawLen(mem[head..])) == i <= |mem| && Fours(i)
  {
    HeaderIn(mem, low, id, 4 + |body|, body);
    FourMore(|body|);
    PadAligned(4 + |body|);
    SumAligned(head, 4 + |body|);
  }

  lemma StandsMore(mem: seq<byte>, head: nat, id: nat, low: seq<byte>, body: seq<byte>, e: seq<byte>)
    requires Behind(mem, head, id, low, body, e) && Fours(|e|)
    ensures Stands(mem, head, id, low, body + e)
  {
    Included(mem, low, Header(id, 4 + |body| + |e|), body, e);
    SumAligned(|body|, |e|);
    assert 4 + |body + e| == 4 + |body| + |e|;
  }

  lemma ShapesPushed(below: seq<Frame>, top: Frame, low: seq<byte>, body: seq<byte>, id: nat, front: seq<byte>)
    requires Shapes(below, top, low, body) && Fours(|body|) && top.id < 256
    ensures Shapes(below + [top], Frame(id, front, []), low + (Header(top.id, 4 + |body| + 4) + body), front)
  {
    assert (below + [top])[..|below|] == below && Body(Frame(id, front, [])) == front;
  }

  lemma StandsPushed(mem: seq<byte>, i: nat, low: seq<byte>, id: nat, front: seq<byte>)
    requires Pages(|mem|) && i == |low| && Fours(i) && Fours(|front|) && id < 256 && i + 4 + |front| < MAX_LEN
    requires At(mem, 0, low) && At(mem, i, Header(id, 4 + |front|) + front)
    ensures Stands(mem, i, id, low, front)
  {
    AtJoin(mem, 0, low, Header(id, 4 + |front|) + front);
  }

  lemma ShapesIs(below: seq<Frame>, top: Frame, low: seq<byte>, body: seq<byte>)
    requires Shapes(below, top, low, body)
    ensures low == Lower(below) && (below != [] ==> Aligned(below[|below| - 1]))
  {
    assert below != [] ==> below[|below| - 1] in below;
  }

  /** The frame below the innermost one. */
  lemma FrameBelow(below: seq<Frame>, top: Frame, low: seq<byte>, body: seq<byte>) returns (rest: seq<Frame>, f: Frame)
    requires Shapes(below, top, low, body) && below != []
    ensures below == rest + [f] && rest == below[..|below| - 1] && f == below[|below| - 1] && Aligned(f)
    ensures low == Lower(rest) + (Header(f.id, 4 + |Body(f)| + 4) + Body(f))
  {
    ShapesIs(below, top, low, body);
    rest, f := LastFrame(below);
  }

  lemma LastFrame(below: seq<Frame>) returns (rest: seq<Frame>, f: Frame)
    requires below != []
    ensures below == rest + [f] && rest == below[..|below| - 1] && f == below[|below| - 1]
    ensures Lower(below) == Lower(rest) + (Header(f.id, 4 + |Body(f)| + 4) + Body(f))
  {
    rest, f := below[..|below| - 1], below[|below| - 1];
  }

  lemma LowerMore(rest: seq<Frame>, f: Frame)
    ensures Lower(rest + [f]) == Lower(rest) + (Header(f.id, Len(f) + 4) + Body(f))
  {
    assert (rest + [f])[..|rest|] == rest;
  }

  lemma ShapesPopped(rest: seq<Frame>, f: Frame, top: Frame, low: seq<byte>, body: seq<byte>)
    requires Shapes(rest + [f], top, low, body) && Aligned(top)
    ensures |low| == |Lower(rest)| + 4 + |Body(f)| && Fours(|Header(top.id, 4 + |body|) + body|) && Aligned(f)
    ensures Fours(|Lower(rest)|)
    ensures Shapes(rest, f.(kids := f.kids + [Nest(top.id, top.front, top.kids)]), Lower(rest),
            Body(f) + (Header(top.id, 4 + |body|) + body))
  {
    assert f in rest + [f] && forall g <- rest :: g in rest + [f];
    LowerMore(rest, f);
    FrameEncodes(top);
    BodyMore(f, Nest(top.id, top.front, top.kids));
    EncodeAligned(Nest(top.id, top.front, top.kids));
    LowerAligned(rest);
  }

  lemma StandsPopped(mem: seq<byte>, low: seq<byte>, id: nat, body: seq<byte>, e: seq<byte>)
    requires Pages(|mem|) && Fours(|low|) && Fours(|body|) && Fours(|e|) && id < 256
    requires |low| + 4 + |body| + |e| < MAX_LEN
    requires At(mem, 0, low + (Header(id, 4 + |body| + |e|) + (body + e)))
    ensures Stands(mem, |low|, id, low, body + e)
  {
    SumAligned(|body|, |e|);
    assert 4 + |body + e| == 4 + |body| + |e|;
  }

  class Buffer {
    var mem: seq<byte>
    var head: nat
    /** The frames below the innermost one, and that one. */
    ghost var below: seq<Frame>
    ghost var top: Frame
    /** Their bytes. */
    ghost var low: seq<byte>
    ghost var body: seq<byte>

    /** How much of the buffer is in use. */
    ghost function Size(): nat
      reads this`low, this`body
    {
      |low| + 4 + |body|
    }

    ghost predicate Placed()
      reads this
    {
      Stands(mem, head, top.id, low, body)
    }

    ghost predicate Shaped()
      reads this`below, this`top, this`low, this`body
    {
      Shapes(below, top, low, body)
    }

    ghost predicate Valid()
      reads this
    {
      Placed() && Shaped()
    }

    constructor (id: nat)
      requires id < 256
      ensures Valid() && below == [] && top == Frame(id, [], []) && Size() == 4
    {
      mem, head, below, top, low, body := [], 0, [], Frame(id, [], []), [], [];
      new;
      assert 0 == Page(0);
      Init(id);
    }

    /** blob_buf_init: whatever the buffer held is given up. */
    method Init(id: nat)
      requires Pages(|mem|) && id < 256
      modifies this
      ensures Valid() && below == [] && top == Frame(id, [], []) && Size() == 4
    {
      NoneOrFour();
      head := 0;
      Add(0, id, 0);
      assert [] + (Header(id, 4) + []) == Header(id, 4);
      below, top, low, body := [], Frame(id, [], []), [], [];
    }

    /** blob_buffer_grow */
    method Grow(required: nat)
      requires Pages(|mem|)
      modifies this`mem
      ensures Pages(|mem|) && |mem| > old(|mem|) + required && old(mem) <= mem
    {
      var delta := Page(required / 256 + 1);
      MorePages(|mem|, required / 256 + 1);
      mem := mem + Zeros(delta);
    }

    /** The first half of blob_add: room for n bytes from position i on. */
    method MakeRoom(i: nat, n: nat)
      requires Pages(|mem|) && Fours(i) && i <= |mem|
      modifies this`mem
      ensures Pages(|mem|) && i + Pad(n) <= |mem| && old(mem) <= mem
    {
      var required := i + n - |mem|;
      if required > 0 {
        Grow(required);
      }
      PagesAligned(|mem|);
      PadFits(i, n, |mem|);
    }

    /** blob_add: the header and the padding of an attribute with n bytes of payload. */
    method Add(i: nat, id: nat, n: nat)
      requires Pages(|mem|) && Fours(i) && i <= |mem|
      modifies this`mem
      ensures Pages(|mem|) && i + Pad(4 + n) <= |mem|
      ensures mem[..i] == old(mem[..i]) && At(mem, i, Header(id, 4 + n))
      ensures At(mem, i + 4 + n, Zeros(Pad(4 + n) - 4 - n))
    {
      MakeRoom(i, 4 + n);
      ghost var was := mem;
      var header, zeros := Header(id, 4 + n), Zeros(Pad(4 + n) - 4 - n);
      var m := Overwritten(mem, i, header);
      OverwrittenElse(m, i + 4 + n, zeros, i, header);
      mem := Overwritten(m, i + 4 + n, zeros);
      assert mem[..i] == m[..i] == was[..i];
    }

    /** blob_set_raw_len: the length of an attribute changes; its id and every other byte stay. */
    method SetRawLen(i: nat, len: nat)
      requires i + 4 <= |mem|
      modifies this`mem
      ensures |mem| == old(|mem|) && Relength(old(mem), mem, i, len)
      ensures mem == Overwritten(old(mem), i, Header(IdOf(old(mem)[i..]), len))
    {
      ghost var was := mem;
      mem := mem[i + 1 := HeaderByte(0, len, 1)][i + 2 := HeaderByte(0, len, 2)][i + 3 := HeaderByte(0, len, 3)];
      Relengthened(was, i, len);
    }

    /** The last step of blob_new. */
    method Lengthen(i: nat, ghost len: nat, ghost n: nat, ghost x: seq<byte>, ghost k: nat, ghost z: seq<byte>)
      requires At(mem, 0, low + (Header(top.id, len) + body)) && len < MAX_LEN && top.id < 256 && head == |low|
      requires Fours(len)
      requires i == head + 4 + |body| && At(mem, i, x) && At(mem, i + k, z) && i + 4 <= |mem| && RawLen(mem[i..]) == n
      modifies this`mem
      ensures |mem| == old(|mem|) && At(mem, 0, low + (Header(top.id, len + Pad(n)) + body)) && At(mem, i, x)
      ensures At(mem, i + k, z)
    {
      NewPatched(mem, low, top.id, len, body, len + Pad(n), i, x, k, z);
      PadAligned(len);
      ghost var now := Overwritten(mem, |low|, Header(top.id, len + Pad(n)));
      SetRawLen(head, Pad(RawLen(mem[head..])) + Pad(RawLen(mem[i..])));
      assert mem == now;
    }

    /** blob_add behind the innermost frame */
    method AddBehind(id: nat, n: nat) returns (i: nat)
      requires Placed() && id < 256 && Size() + Pad(4 + n) < MAX_LEN
      modifies this`mem
      ensures Pages(|mem|) && i == Size() && Fours(i) && i + Pad(4 + n) <= |mem| && RawLen(mem[i..]) == 4 + n
      ensures At(mem, 0, low + (Header(top.id, 4 + |body|) + body))
      ensures At(mem, i, Header(id, 4 + n)) && At(mem, i + 4 + n, Zeros(Pad(4 + n) - 4 - n))
    {
      EndOf(mem, head, top.id, low, body);
      i := head + Pad(RawLen(mem[head..]));
      ghost var was, s := mem, low + (Header(top.id, 4 + |body|) + body);
      Add(i, id, n);
      SamePrefix(was, mem, s);
      HeaderAt(mem, i, id, 4 + n);
    }

    /** blob_new: an attribute behind the innermost frame, which becomes longer by it. */
    method New(id: nat, n: nat, ghost len: nat) returns (i: nat)
      requires Placed() && id < 256 && len == Pad(4 + n) && Size() + len < MAX_LEN
      modifies this`mem
      ensures Pages(|mem|) && i == Size() && Fours(i) && i + len <= |mem|
      ensures At(mem, 0, low + (Header(top.id, 4 + |body| + len) + body))
      ensures At(mem, i, Header(id, 4 + n)) && At(mem, i + 4 + n, Zeros(Pad(4 + n) - 4 - n))
    {
      FourMore(|body|);
      i := AddBehind(id, n);
      Lengthen(i, 4 + |body|, 4 + n, Header(id, 4 + n), 4 + n, Zeros(Pad(4 + n) - 4 - n));
    }

    /** An attribute that has been written behind the innermost frame becomes part of it. */
    ghost method Include(a: Attr, e: seq<byte>)
      requires Shaped() && e == Encode(a) && Behind(mem, head, top.id, low, body, e)
      modifies this`top, this`body
      ensures Valid() && top == old(top).(kids := old(top).kids + [a]) && body == old(body) + e
    {
      EncodeAligned(a);
      ShapesMore(below, top, low, body, a);
      StandsMore(mem, head, top.id, low, body, e);
      top, body := top.(kids := top.kids + [a]), body + e;
    }

    /** memcpy into a new attribute at position i, behind the bytes s. */
    method CopyPayload(i: nat, payload: seq<byte>, ghost id: nat, ghost s: seq<byte>)
      requires At(mem, 0, s) && |s| == i
      requires var n := |payload|; At(mem, i, Header(id, 4 + n)) && At(mem, i + 4 + n, Zeros(Pad(4 + n) - 4 - n))
      modifies this`mem
      ensures |mem| == old(|mem|) && At(mem, 0, s) && At(mem, i, Padded(id, payload))
    {
      Copied(mem, i, id, payload);
      OverwrittenElse(mem, i + 4, payload, 0, s);
      mem := Overwritten(mem, i + 4, payload);
    }

    /** The same in two pieces. */
    method CopyPieces(i: nat, front: seq<byte>, data: seq<byte>, ghost id: nat, ghost s: seq<byte>)
      requires At(mem, 0, s) && |s| == i
      requires var n := |front + data|; At(mem, i, Header(id, 4 + n)) && At(mem, i + 4 + n, Zeros(Pad(4 + n) - 4 - n))
      modifies this`mem
      ensures |mem| == old(|mem|) && At(mem, 0, s) && At(mem, i, Padded(id, front + data))
    {
      ghost var all := front + data;
      Copied(mem, i, id, all);
      OverwrittenElse(mem, i + 4, all, 0, s);
      OverwrittenTwice(mem, i + 4, front, data);
      mem := Overwritten(Overwritten(mem, i + 4, front), i + 4 + |front|, data);
    }

    /** blob_put, as far as bytes are concerned. */
    method Lay(id: nat, payload: seq<byte>)
      requires Placed() && id < 256 && Size() + Pad(4 + |payload|) < MAX_LEN
      modifies this`mem
      ensures Behind(mem, head, top.id, low, body, Padded(id, payload))
    {
      ghost var e := Padded(id, payload);
      var i := New(id, |payload|, |e|);
      ghost var s := low + (Header(top.id, 4 + |body| + |e|) + body);
      assert |s| == i == |low| + 4 + |body|;
      CopyPayload(i, payload, id, s);
    }

    /** blob_put */
    method Put(id: nat, payload: seq<byte>)
      requires Valid() && id < 256 && Size() + Pad(4 + |payload|) < MAX_LEN
      modifies this
      ensures Valid() && below == old(below) && top == old(top).(kids := old(top).kids + [Leaf(id, payload)])
      ensures Size() == old(Size()) + Pad(4 + |payload|)
    {
      Lay(id, payload);
      Include(Leaf(id, payload), Padded(id, payload));
    }

    /** The same with the payload in two pieces. */
    method LayPieces(id: nat, front: seq<byte>, data: seq<byte>, ghost all: seq<byte>)
      requires Placed() && id < 256 && all == front + data && Size() + Pad(4 + |all|) < MAX_LEN
      modifies this`mem
      ensures Behind(mem, head, top.id, low, body, Padded(id, all))
    {
      ghost var e := Padded(id, all);
      var i := New(id, |front| + |data|, |e|);
      ghost var s := low + (Header(top.id, 4 + |body| + |e|) + body);
      assert |s| == i == |low| + 4 + |body|;
      CopyPieces(i, front, data, id, s);
    }

    /** blob_new followed by copying the payload in two pieces. */
    method PutPieces(id: nat, front: seq<byte>, data: seq<byte>)
      requires Valid() && id < 256 && Size() + Pad(4 + |front + data|) < MAX_LEN
      modifies this
      ensures Valid() && below == old(below) && top == old(top).(kids := old(top).kids + [Leaf(id, front + data)])
      ensures Size() == old(Size()) + Pad(4 + |front + data|)
    {
      ghost var all := front + data;
      LayPieces(id, front, data, all);
      Include(Leaf(id, all), Padded(id, all));
    }

    /** A new attribute at position i becomes the innermost frame. */
    method Push(i: nat, ghost id: nat, ghost front: seq<byte>)
      requires Pages(|mem|) && Fours(i) && top.id < 256 && Fours(|body|) && Shaped() && id < 256 && Fours(|front|)
      requires i == Size() && i + 4 + |front| < MAX_LEN
      requires At(mem, 0, low + (Header(top.id, 4 + |body| + 4) + body)) && At(mem, i, Header(id, 4 + |front|) + front)
      modifies this`head, this`below, this`top, this`low, this`body
      ensures Valid() && below == old(below) + [old(top)] && top == Frame(id, front, []) && head == i
      ensures Size() == i + 4 + |front|
    {
      ShapesPushed(below, top, low, body, id, front);
      ghost var lower := low + (Header(top.id, 4 + |body| + 4) + body);
      StandsPushed(mem, i, lower, id, front);
      head, low, body := i, lower, front;
      below, top := below + [top], Frame(id, front, []);
    }

    /** blob_nest_start */
    method NestStart(id: nat) returns (cookie: nat)
      requires Valid() && id < 256 && Size() + 4 < MAX_LEN
      modifies this
      ensures Valid() && below == old(below) + [old(top)] && top == Frame(id, [], []) && cookie == old(head)
      ensures Size() == old(Size()) + 4
    {
      cookie := head;
      NoneOrFour();
      var i := New(id, 0, 4);
      assert Header(id, 4) + [] == Header(id, 4);
      Push(i, id, []);
    }

    /** blobmsg_open_nested takes the bytes in front off the length of the frame below; blob_nest_end will add them
        again. */
    method Shorten(h: nat, i: nat, ghost len: nat, ghost x: seq<byte>)
      requires At(mem, 0, low + (Header(top.id, len + h) + body)) && len + h < MAX_LEN && top.id < 256 && head == |low|
      requires Fours(len + h)
      requires i == Size() && At(mem, i, x)
      modifies this`mem
      ensures |mem| == old(|mem|) && At(mem, 0, low + (Header(top.id, len) + body)) && At(mem, i, x)
    {
      NewPatched(mem, low, top.id, len + h, body, len, i, x, 0, []);
      PadAligned(len + h);
      ghost var now := Overwritten(mem, |low|, Header(top.id, len));
      SetRawLen(head, Pad(RawLen(mem[head..])) - h);
      assert mem == now;
    }

    /** blobmsg_open_nested up to the length: a nested attribute with some bytes in front. */
    method Front(id: nat, front: seq<byte>) returns (i: nat)
      requires Placed() && id < 256 && Fours(|front|) && Size() + (4 + |front|) < MAX_LEN
      modifies this`mem
      ensures Pages(|mem|) && i == Size() && Fours(i)
      ensures At(mem, 0, low + (Header(top.id, 4 + |body| + (4 + |front|)) + body))
      ensures At(mem, i, Header(id, 4 + |front|) + front)
    {
      FourMore(|front|);
      PadAligned(4 + |front|);
      i := New(id, |front|, 4 + |front|);
      CopyPayload(i, front, id, low + (Header(top.id, 4 + |body| + (4 + |front|)) + body));
      assert Padded(id, front) == Header(id, 4 + |front|) + front;
    }

    /** blobmsg_open_nested */
    method NestStartWith(id: nat, front: seq<byte>) returns (cookie: nat)
      requires Valid() && id < 256 && Fours(|front|) && Size() + (4 + |front|) < MAX_LEN
      modifies this
      ensures Valid() && below == old(below) + [old(top)] && top == Frame(id, front, []) && cookie == old(head)
      ensures Size() == old(Size()) + (4 + |front|)
    {
      cookie := head;
      var i := Open(id, front, Header(id, 4 + |front|) + front);
      Push(i, id, front);
    }

    /** The same with the length of the frame below as it is while the new one is open. */
    method Open(id: nat, front: seq<byte>, ghost e: seq<byte>) returns (i: nat)
      requires Placed() && id < 256 && Fours(|front|) && Size() + (4 + |front|) < MAX_LEN
      requires e == Header(id, 4 + |front|) + front
      modifies this`mem
      ensures Pages(|mem|) && i == Size() && Fours(i)
      ensures At(mem, 0, low + (Header(top.id, 4 + |body| + 4) + body)) && At(mem, i, e)
    {
      i := Front(id, front);
      FourMore(|body|);
      FourMore(4 + |body|);
      SumAligned(4 + |body| + 4, |front|);
      Shorten(|front|, i, 4 + |body| + 4, e);
    }

    /** blob_nest_end patches the length of the frame below. */
    method PatchBelow(cookie: nat, ghost rest: seq<byte>, ghost id: nat, ghost outer: seq<byte>, ghost e: seq<byte>)
      requires low == rest + (Header(id, 4 + |outer| + 4) + outer) && Placed() && id < 256 && Fours(|outer|)
      requires cookie == |rest|
      requires e == Header(top.id, 4 + |body|) + body
      modifies this`mem
      ensures |mem| == old(|mem|)
      ensures At(mem, 0, rest + (Header(id, 4 + |outer| + |e|) + (outer + e)))
    {
      NestReads(mem, rest, id, outer, top.id, body);
      NestClosed(mem, rest, id, outer, e);
      var len := Pad(RawLen(mem[cookie..])) + (RawLen(mem[head..]) - 4);
      assert len == 4 + |outer| + |e|;
      ghost var h := Header(id, 4 + |outer| + |e|);
      Patch(cookie, len, h, rest + (h + (outer + e)));
    }

    /** A header is overwritten, which makes the buffer start with s. */
    method Patch(i: nat, len: nat, ghost h: seq<byte>, ghost s: seq<byte>)
      requires i + 4 <= |mem| && h == Header(IdOf(mem[i..]), len) && At(Overwritten(mem, i, h), 0, s) == true
      modifies this`mem
      ensures |mem| == old(|mem|) && At(mem, 0, s) == true
    {
      ghost var now := Overwritten(mem, i, h);
      SetRawLen(i, len);
      assert mem == now;
    }

    /** The innermost frame ends and becomes the last attribute in the frame below. */
    ghost method Pop(rest: seq<Frame>, f: Frame)
      requires Pages(|mem|) && below == rest + [f] && Shaped() && Aligned(top) && head == |Lower(rest)|
      requires Size() < MAX_LEN
      requires var e := Header(top.id, 4 + |body|) + body;
               At(mem, 0, Lower(rest) + (Header(f.id, 4 + |Body(f)| + |e|) + (Body(f) + e)))
      modifies this`below, this`top, this`low, this`body
      ensures Valid() && below == rest
      ensures top == f.(kids := f.kids + [Nest(old(top).id, old(top).front, old(top).kids)]) && Size() == old(Size())
    {
      ghost var e := Header(top.id, 4 + |body|) + body;
      ShapesPopped(rest, f, top, low, body);
      StandsPopped(mem, Lower(rest), f.id, Body(f), e);
      low, body := Lower(rest), Body(f) + e;
      below, top := rest, f.(kids := f.kids + [Nest(top.id, top.front, top.kids)]);
    }

    /** What a reader finds in a buffer in which all nests have ended. */
    lemma Root()
      requires Valid() && below == []
      ensures |mem| >= 4 && 4 <= RawLen(mem) <= |mem| && mem[4..RawLen(mem)] == Body(top)
    {
      RootReads(mem, top.id, body);
    }

    /** blob_nest_end: the cookie is the position of the frame below. */
    method NestEnd(cookie: nat)
      requires Valid() && below != [] && cookie == |Lower(below[..|below| - 1])|
      modifies this
      ensures Valid() && below == old(below[..|below| - 1])
      ensures var f := old(below[|below| - 1]);
              top == f.(kids := f.kids + [Nest(old(top).id, old(top).front, old(top).kids)])
      ensures head == cookie && Size() == old(Size())
    {
      ghost var rest, f := FrameBelow(below, top, low, body);
      PatchBelow(cookie, Lower(rest), f.id, Body(f), Header(top.id, 4 + |body|) + body);
      head := cookie;
      Pop(rest, f);
    }
  }

  lemma {:induction false} LowerAligned(fs: seq<Frame>)
    requires forall f <- fs :: Aligned(f)
    ensures Fours(|Lower(fs)|)
  {
    if fs == [] {
      NoneOrFour();
    } else {
      assert Aligned(fs[|fs| - 1]);
      FourMore(|Body(fs[|fs| - 1])|);
      LowerAligned(fs[..|fs| - 1]);
      SumAligned(|Lower(fs[..|fs| - 1])|, Len(fs[|fs| - 1]));
    }
  }

  /** The bytes of a frame that ends are those of a nested attribute. */
  lemma FrameEncodes(f: Frame)
    requires Aligned(f)
    ensures Encode(Nest(f.id, f.front, f.kids)) == Header(f.id, Len(f)) + Body(f)
  {
    FourMore(|Body(f)|);
    PadAligned(Len(f));
    assert Header(f.id, Len(f)) + Body(f) + Zeros(0) == Header(f.id, Len(f)) + Body(f);
  }

  /** The buffer seen from the frame that ends, and from the frame below. */
  lemma NestLies(m: seq<byte>, low: seq<byte>, h: seq<byte>, body: seq<byte>, e: seq<byte>)
    requires At(m, 0, low + (h + body) + e)
    ensures At(m, 0, low + (h + (body + e)))
  {
    Associates(low, h + body, e);
    Associates(h, body, e);
  }

  /** What blob_nest_end reads. */
  lemma NestReads(m: seq<byte>, low: seq<byte>, id: nat, body: seq<byte>, id2: nat, body2: seq<byte>)
    requires At(m, 0, low + (Header(id, 4 + |body| + 4) + body) + (Header(id2, 4 + |body2|) + body2))
    requires id < 256 && id2 < 256 && Fours(|body|) && |low| + 4 + |body| + 4 + |body2| < MAX_LEN
    ensures var j, i := |low|, |low| + 4 + |body|;
            && j + 4 <= |m| && i + 4 <= |m| && IdOf(m[j..]) == id
            && Pad(RawLen(m[j..])) == 4 + |body| + 4 && RawLen(m[i..]) == 4 + |body2|
  {
    var h, e := Header(id, 4 + |body| + 4), Header(id2, 4 + |body2|) + body2;
    NestLies(m, low, h, body, e);
    HeaderIn(m, low, id, 4 + |body| + 4, body + e);
    HeaderIn(m, low + (h + body), id2, 4 + |body2|, body2);
    FourMore(|body|);
    FourMore(4 + |body|);
    PadAligned(4 + |body| + 4);
  }

  /** What the buffer starts with once it has patched the length. */
  lemma NestClosed(m: seq<byte>, low: seq<byte>, id: nat, body: seq<byte>, e: seq<byte>)
    requires At(m, 0, low + (Header(id, 4 + |body| + 4) + body) + e)
    ensures |low| + 4 <= |m|
    ensures At(Overwritten(m, |low|, Header(id, 4 + |body| + |e|)), 0,
               low + (Header(id, 4 + |body| + |e|) + (body + e)))
  {
    NestLies(m, low, Header(id, 4 + |body| + 4), body, e);
    Patched(m, low, Header(id, 4 + |body| + 4), body + e, Header(id, 4 + |body| + |e|));
  }

  lemma {:induction false} BodyMore(f: Frame, a: Attr)
    ensures Body(f.(kids := f.kids + [a])) == Body(f) + Encode(a)
    ensures Len(f.(kids := f.kids + [a])) == Len(f) + |Encode(a)|
    ensures Aligned(f) ==> Aligned(f.(kids := f.kids + [a]))
  {
    EncodeAllMore(f.kids, a);
    Associates(f.front, EncodeAll(f.kids), Encode(a));
    EncodeAligned(a);
    if Aligned(f) {
      SumAligned(|Body(f)|, |Encode(a)|);
    }
  }

  lemma Included(m: seq<byte>, low: seq<byte>, h: seq<byte>, body: seq<byte>, e: seq<byte>)
    requires At(m, 0, low + (h + body)) && At(m, |low| + |h| + |body|, e)
    ensures At(m, 0, low + (h + (body + e)))
  {
    AtJoin(m, 0, low + (h + body), e);
    Associates(low, h + body, e);
    Associates(h, body, e);
  }

  lemma SamePrefix(m: seq<byte>, m': seq<byte>, s: seq<byte>)
    requires At(m, 0, s) && |s| <= |m'| && m'[..|s|] == m[..|s|]
    ensures At(m', 0, s)
  {
    assert m[0..0 + |s|] == m[..|s|] && m'[0..0 + |s|] == m'[..|s|];
  }

  /** What blob_set_raw_len does after the bytes x and z have been put behind the innermost frame. */
  lemma NewPatched(m: seq<byte>, low: seq<byte>, id: nat, len: nat, body: seq<byte>, len': nat, i: nat, x: seq<byte>,
      k: nat, z: seq<byte>)
    requires At(m, 0, low + (Header(id, len) + body)) && len < MAX_LEN && id < 256
    requires i == |low| + 4 + |body| && At(m, i, x) && At(m, i + k, z)
    ensures |low| + 4 <= |m| && RawLen(m[|low|..]) == len && IdOf(m[|low|..]) == id
    ensures var now := Overwritten(m, |low|, Header(id, len'));
            At(now, 0, low + (Header(id, len') + body)) && At(now, i, x) && At(now, i + k, z)
  {
    HeaderIn(m, low, id, len, body);
    Patched(m, low, Header(id, len), body, Header(id, len'));
    OverwrittenElse(m, |low|, Header(id, len'), i, x);
    OverwrittenElse(m, |low|, Header(id, len'), i + k, z);
  }

  /** Whole attributes fit, although only their unpadded length is asked for, since sizes and positions
      are multiples of four. */
  lemma PadFits(i: nat, n: nat, size: nat)
    requires Fours(size) && Fours(i) && i + n <= size
    ensures i + Pad(n) <= size
  {
    var a: nat, c: nat :| i == Quad(a) && size == Quad(c);
  }

  /** What a reader finds at the start of a buffer whose first attribute has this payload. */
  lemma RootReads(m: seq<byte>, id: nat, body: seq<byte>)
    requires At(m, 0, [] + (Header(id, 4 + |body|) + body)) && 4 + |body| < MAX_LEN && id < 256
    ensures |m| >= 4 + |body| && RawLen(m) == 4 + |body| && m[4..4 + |body|] == body
  {
    HeaderIn(m, [], id, 4 + |body|, body);
    assert m[0..] == m && [] + (Header(id, 4 + |body|) + body) == Header(id, 4 + |body|) + body;
    AtSplit(m, 0, Header(id, 4 + |body|), body);
    assert Look(Memory, 0);
  }
}
