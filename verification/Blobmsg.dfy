/** Named messages on top of blob attributes (blobmsg.c). */
module Blobmsg {
  import opened Common
  import opened Bytes
  import opened Blob
  import opened BlobBuf

  const ARRAY := 1
  const TABLE := 2

  /** A message: some data, or an array or table of messages, under a name. */
  datatype Msg =
    | Field(kind: nat, name: seq<byte>, data: seq<byte>)
    | Nested(isArray: bool, name: seq<byte>, kids: seq<Msg>)
  {
    function Kind(): nat { if Field? then kind else if isArray then ARRAY else TABLE }
  }

  /** blobmsg_hdrlen */
  function HdrLen(n: nat): nat { Pad(2 + n + 1) }

  /** struct blobmsg_hdr with its padding: the length of the name, the name and at least one NUL. */
  function NameHeader(name: seq<byte>): (h: seq<byte>)
    ensures |h| == HdrLen(|name|)
  {
    [(|name| / 256 % 256) as byte, (|name| % 256) as byte] + name + Zeros(HdrLen(|name|) - 2 - |name|)
  }

  /** Where things are in it: two bytes of length, the name, a NUL, and zeros up to a multiple of four. */
  lemma NameHeaderLaid(name: seq<byte>)
    requires |name| < 65536
    ensures var h, n := NameHeader(name), |name|;
            && h[0] as nat * 256 + h[1] as nat == n && h[2..2 + n] == name && |h| == (n + 3 + 3) / 4 * 4
            && forall i :: 2 + n <= i < |h| ==> h[i] == 0
  {
  }

  function ToAttr(m: Msg): Attr {
    match m
    case Field(kind, name, data) => Leaf(kind, NameHeader(name) + data)
    case Nested(_, name, kids) => Nest(m.Kind(), NameHeader(name), ToAttrs(kids))
  }

  function ToAttrs(ms: seq<Msg>): seq<Attr> {
    if ms == [] then [] else [ToAttr(ms[0])] + ToAttrs(ms[1..])
  }

  // ---- reading ----

  function NameLen(p: seq<byte>): nat
    requires |p| >= 2
  {
    p[0] as nat * 256 + p[1] as nat
  }

  /** The string at the start of s, up to a NUL. */
  function CString(s: seq<byte>): seq<byte> {
    if s == [] || s[0] == 0 then [] else [s[0]] + CString(s[1..])
  }

  /** The payload starts with a name header (the size test of blobmsg_check_attr). */
  predicate Readable(p: seq<byte>) {
    |p| >= 3 && HdrLen(NameLen(p)) <= |p|
  }

  /** blobmsg_type, blobmsg_name, blobmsg_data and blobmsg_data_len */
  function ReadItem(m: Item): Msg
    decreases |m.payload|, 1
  {
    var p := m.payload;
    if !Readable(p) then Field(m.id, [], p)
    else
      var name, data := CString(p[2..]), p[HdrLen(NameLen(p))..];
      if m.id == ARRAY || m.id == TABLE then Nested(m.id == ARRAY, name, ReadAll(data)) else Field(m.id, name, data)
  }

  /** blobmsg_for_each_attr, going into arrays and tables. */
  function ReadAll(s: seq<byte>): seq<Msg>
    decreases |s|, 0
  {
    if Present(s) then [ReadItem(First(s))] + ReadAll(s[Pad(RawLen(s))..]) else []
  }

  /** Messages that can be written: names are strings of at most 65535 bytes. */
  predicate Writable(m: Msg) {
    |m.name| < 65536 && 0 !in m.name && m.Kind() < 256 && (m.Nested? ==> AllWritable(m.kids))
  }

  predicate AllWritable(ms: seq<Msg>) {
    forall m <- ms :: Writable(m)
  }

  /** How a reader sees a message: data that was added as an array or a table is read as one. */
  function Seen(m: Msg): Msg {
    match m
    case Field(kind, name, data) =>
      if kind == ARRAY || kind == TABLE then Nested(kind == ARRAY, name, ReadAll(data)) else m
    case Nested(isArray, name, kids) => Nested(isArray, name, SeenAll(kids))
  }

  function SeenAll(ms: seq<Msg>): seq<Msg> {
    if ms == [] then [] else [Seen(ms[0])] + SeenAll(ms[1..])
  }

  /** All arrays and tables in it are nested messages. */
  predicate Plain(m: Msg) {
    match m
    case Field(kind, _, _) => kind != ARRAY && kind != TABLE
    case Nested(_, _, kids) => forall k <- kids :: Plain(k)
  }

  /** Exactly such messages are seen as they are. */
  lemma {:induction false} SeenSame(m: Msg)
    ensures Seen(m) == m <==> Plain(m)
    decreases m, 1
  {
    if m.Nested? {
      SeenAllSame(m.kids);
    }
  }

  lemma {:induction false} SeenAllSame(ms: seq<Msg>)
    ensures SeenAll(ms) == ms <==> forall m <- ms :: Plain(m)
    decreases ms, 0
  {
    if ms != [] {
      SeenSame(ms[0]);
      SeenAllSame(ms[1..]);
      assert ms == [ms[0]] + ms[1..];
      assert SeenAll(ms)[0] == Seen(ms[0]) && SeenAll(ms)[1..] == SeenAll(ms[1..]);
    }
  }

  lemma {:induction false} CStringReads(name: seq<byte>, rest: seq<byte>)
    requires 0 !in name && rest != [] && rest[0] == 0
    ensures CString(name + rest) == name
  {
    if name == [] {
      assert name + rest == rest;
    } else {
      assert (name + rest)[1..] == name[1..] + rest && (name + rest)[0] == name[0] && name[0] in name;
      CStringReads(name[1..], rest);
    }
  }

  /** The name header reads back, whatever follows it. */
  lemma HeaderNames(name: seq<byte>, data: seq<byte>)
    requires |name| < 65536 && 0 !in name
    ensures var p := NameHeader(name) + data;
            Readable(p) && NameLen(p) == |name| && CString(p[2..]) == name && p[HdrLen(|name|)..] == data
  {
    var p := NameHeader(name) + data;
    var z := Zeros(HdrLen(|name|) - 2 - |name|);
    assert p[0] == (|name| / 256 % 256) as byte && p[1] == (|name| % 256) as byte;
    assert |name| / 256 < 256;
    assert p[2..] == name + (z + data);
    assert (z + data)[0] == 0;
    CStringReads(name, z + data);
  }

  /** Reading a written message gives the message, as a reader sees it. */
  lemma {:induction false} ReadsBack(m: Msg, rest: seq<byte>)
    requires Writable(m) && Sized(ToAttr(m))
    ensures ReadAll(Encode(ToAttr(m)) + rest) == [Seen(m)] + ReadAll(rest)
    decreases m, 1
  {
    var data := if m.Field? then m.data else EncodeAll(ToAttrs(m.kids));
    var p := NameHeader(m.name) + data;
    FirstOf(m.Kind(), p, rest);
    HeaderNames(m.name, data);
    if m.Nested? {
      ReadsAllBack(m.kids);
    }
  }

  /** The first of several messages, and the others. */
  lemma Parts(ms: seq<Msg>)
    requires AllWritable(ms) && AllSized(ToAttrs(ms)) && ms != []
    ensures Writable(ms[0]) && Sized(ToAttr(ms[0])) && AllWritable(ms[1..]) && AllSized(ToAttrs(ms[1..]))
    ensures EncodeAll(ToAttrs(ms)) == Encode(ToAttr(ms[0])) + EncodeAll(ToAttrs(ms[1..]))
  {
    assert ToAttrs(ms)[0] == ToAttr(ms[0]) && ToAttrs(ms)[1..] == ToAttrs(ms[1..]);
    assert forall a <- ToAttrs(ms[1..]) :: a in ToAttrs(ms);
    assert forall m <- ms[1..] :: m in ms;
  }

  lemma {:induction false} ReadsAllBack(ms: seq<Msg>)
    requires AllWritable(ms) && AllSized(ToAttrs(ms))
    ensures ReadAll(EncodeAll(ToAttrs(ms))) == SeenAll(ms)
    decreases ms, 0
  {
    if ms != [] {
      Parts(ms);
      ReadsBack(ms[0], EncodeAll(ToAttrs(ms[1..])));
      ReadsAllBack(ms[1..]);
    }
  }

  // ---- writing ----

  /** blobmsg_add_field */
  method AddField(b: Buffer, kind: nat, name: seq<byte>, data: seq<byte>)
    requires b.Valid() && kind < 256 && b.Size() + Pad(4 + |NameHeader(name) + data|) < MAX_LEN
    modifies b
    ensures b.Valid() && b.below == old(b.below)
    ensures b.top == old(b.top).(kids := old(b.top).kids + [Leaf(kind, NameHeader(name) + data)])
    ensures b.Size() == old(b.Size()) + Pad(4 + |NameHeader(name) + data|)
  {
    b.PutPieces(kind, NameHeader(name), data);
  }

  /** blobmsg_open_nested */
  method OpenNested(b: Buffer, name: seq<byte>, isArray: bool) returns (cookie: nat)
    requires b.Valid() && b.Size() + (4 + |NameHeader(name)|) < MAX_LEN
    modifies b
    ensures b.Valid() && b.below == old(b.below) + [old(b.top)] && cookie == old(b.head)
    ensures b.top == Frame(if isArray then ARRAY else TABLE, NameHeader(name), [])
    ensures b.Size() == old(b.Size()) + (4 + |NameHeader(name)|)
  {
    cookie := b.NestStartWith(if isArray then ARRAY else TABLE, NameHeader(name));
  }

  /** Writes a message with blobmsg_add_field, blobmsg_open_nested and blob_nest_end. */
  method Write(b: Buffer, m: Msg)
    requires b.Valid() && Writable(m) && b.Size() + |Encode(ToAttr(m))| < MAX_LEN
    modifies b
    ensures b.Valid() && b.below == old(b.below) && b.top == old(b.top).(kids := old(b.top).kids + [ToAttr(m)])
    ensures b.Size() == old(b.Size()) + |Encode(ToAttr(m))|
    decreases m, 1
  {
    match m
    case Field(kind, name, data) => AddField(b, kind, name, data);
    case Nested(isArray, name, kids) =>
      ghost var below, top := b.below, b.top;
      NestedSize(m);
      var cookie := OpenNested(b, name, isArray);
      WriteAll(b, kids);
      assert b.below[..|b.below| - 1] == below && [] + ToAttrs(kids) == ToAttrs(kids);
      b.NestEnd(cookie);
  }

  lemma NestedSize(m: Msg)
    requires m.Nested?
    ensures |Encode(ToAttr(m))| == 4 + |NameHeader(m.name)| + |EncodeAll(ToAttrs(m.kids))|
  {
    EncodeAllAligned(ToAttrs(m.kids));
    SumAligned(|NameHeader(m.name)|, |EncodeAll(ToAttrs(m.kids))|);
    FourMore(|NameHeader(m.name) + EncodeAll(ToAttrs(m.kids))|);
    PadAligned(4 + |NameHeader(m.name) + EncodeAll(ToAttrs(m.kids))|);
  }

  method WriteAll(b: Buffer, ms: seq<Msg>)
    requires b.Valid() && AllWritable(ms) && b.Size() + |EncodeAll(ToAttrs(ms))| < MAX_LEN
    modifies b
    ensures b.Valid() && b.below == old(b.below) && b.top == old(b.top).(kids := old(b.top).kids + ToAttrs(ms))
    ensures b.Size() == old(b.Size()) + |EncodeAll(ToAttrs(ms))|
    decreases ms, 0
  {
    if ms == [] {
      assert b.top.kids + [] == b.top.kids;
      return;
    }
    ghost var kids := b.top.kids;
    assert ToAttrs(ms)[1..] == ToAttrs(ms[1..]) && ToAttrs(ms)[0] == ToAttr(ms[0]);
    Write(b, ms[0]);
    assert forall m <- ms[1..] :: m in ms;
    WriteAll(b, ms[1..]);
    Associates(kids, [ToAttr(ms[0])], ToAttrs(ms[1..]));
  }

  /** If everything together is small enough, so is every part. */
  lemma {:induction false} PartsSized(m: Msg)
    requires Writable(m) && |Encode(ToAttr(m))| < MAX_LEN
    ensures Sized(ToAttr(m))
    decreases m, 1
  {
    if m.Nested? {
      NestedSize(m);
      AllPartsSized(m.kids);
    }
  }

  lemma {:induction false} AllPartsSized(ms: seq<Msg>)
    requires AllWritable(ms) && |EncodeAll(ToAttrs(ms))| < MAX_LEN
    ensures AllSized(ToAttrs(ms))
    decreases ms, 0
  {
    if ms != [] {
      assert ToAttrs(ms)[1..] == ToAttrs(ms[1..]) && ToAttrs(ms)[0] == ToAttr(ms[0]);
      assert forall m <- ms[1..] :: m in ms;
      PartsSized(ms[0]);
      AllPartsSized(ms[1..]);
    }
  }

  method WriteNew(ms: seq<Msg>) returns (b: Buffer)
    requires AllWritable(ms) && 4 + |EncodeAll(ToAttrs(ms))| < MAX_LEN
    ensures b.Valid() && b.below == [] && b.top == Frame(TABLE, [], ToAttrs(ms))
  {
    b := new Buffer(TABLE);
    WriteAll(b, ms);
    assert [] + ToAttrs(ms) == ToAttrs(ms);
  }

  lemma FrontNone(id: nat, kids: seq<Attr>)
    ensures Body(Frame(id, [], kids)) == EncodeAll(kids)
  {
    assert [] + EncodeAll(kids) == EncodeAll(kids);
  }

  /** Messages written into a new buffer and read from its first attribute are the same messages, exactly if their
      arrays and tables are nested messages. */
  method RoundTrip(ms: seq<Msg>) returns (b: Buffer)
    requires AllWritable(ms) && 4 + |EncodeAll(ToAttrs(ms))| < MAX_LEN
    ensures |b.mem| >= 4 && 4 <= RawLen(b.mem) <= |b.mem| && ReadAll(b.mem[4..RawLen(b.mem)]) == SeenAll(ms)
    ensures ReadAll(b.mem[4..RawLen(b.mem)]) == ms <==> forall m <- ms :: Plain(m)
  {
    b := WriteNew(ms);
    b.Root();
    FrontNone(TABLE, ToAttrs(ms));
    ComesBack(b.mem[4..RawLen(b.mem)], ms);
  }

  lemma ComesBack(bytes: seq<byte>, ms: seq<Msg>)
    requires bytes == EncodeAll(ToAttrs(ms)) && AllWritable(ms) && |bytes| < MAX_LEN
    ensures ReadAll(bytes) == SeenAll(ms) && (ReadAll(bytes) == ms <==> forall m <- ms :: Plain(m))
  {
    AllPartsSized(ms);
    ReadsAllBack(ms);
    SeenAllSame(ms);
  }
}
