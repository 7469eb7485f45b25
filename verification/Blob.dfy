/** The attribute format of blob.h: nested, padded and length-prefixed. */
module Blob {
  import opened Common
  import opened Bytes

  const MAX_LEN := 0x1000000

  /** An attribute: plain, or nested with some bytes in front of the attributes in it. */
  datatype Attr = Leaf(id: nat, payload: seq<byte>) | Nest(id: nat, front: seq<byte>, kids: seq<Attr>)

  function Quad(w: nat): nat { 4 * w }

  /** A multiple of four. */
  ghost predicate Fours(n: nat) { exists w: nat :: n == Quad(w) }

  lemma SumAligned(x: nat, y: nat)
    requires Fours(x) && Fours(y)
    ensures Fours(x + y)
  {
    var a: nat, b: nat :| x == Quad(a) && y == Quad(b);
    assert x + y == Quad(a + b);
  }

  lemma FourMore(n: nat)
    requires Fours(n)
    ensures Fours(4 + n)
  {
    assert 4 == Quad(1);
    SumAligned(4, n);
  }

  lemma NoneOrFour()
    ensures Fours(0) && Fours(4)
  {
    assert 0 == Quad(0) && 4 == Quad(1);
  }

  /** blob_pad_len */
  function Pad(n: nat): (r: nat)
    ensures n <= r < n + 4 && Fours(r)
  {
    Quad((n + 3) / 4)
  }

  /** id_len: eight bits of id and twenty-four bits of length, in network order. */
  function Header(id: nat, len: nat): (h: seq<byte>)
    ensures |h| == 4
  {
    seq(4, i requires 0 <= i < 4 => HeaderByte(id, len, i))
  }

  function HeaderByte(id: nat, len: nat, i: nat): byte {
    (if i == 0 then id % 256
     else if i == 1 then len / 256 / 256 % 256
     else if i == 2 then len / 256 % 256
     else len % 256) as byte
  }

  /** blob_id */
  function IdOf(s: seq<byte>): nat
    requires |s| >= 4
  {
    s[0] as nat
  }

  /** blob_raw_len */
  function RawLen(s: seq<byte>): nat
    requires |s| >= 4
  {
    s[1] as nat * 65536 + s[2] as nat * 256 + s[3] as nat
  }

  lemma Digits(len: nat)
    requires len < MAX_LEN
    ensures len / 256 / 256 % 256 == len / 256 / 256
    ensures len == len / 256 / 256 * 65536 + len / 256 % 256 * 256 + len % 256
  {
    var q := len / 256;
    assert len == 256 * q + len % 256;
    assert q == 256 * (q / 256) + q % 256;
  }

  /** The header is one number in network order: the id above twenty-four bits of length. */
  lemma HeaderNumber(id: nat, len: nat)
    requires id < 256 && len < MAX_LEN
    ensures var h := Header(id, len);
            h[0] as nat * 0x1000000 + h[1] as nat * 0x10000 + h[2] as nat * 0x100 + h[3] as nat == id * 0x1000000 + len
  {
    Digits(len);
  }

  lemma HeaderReads(id: nat, len: nat, s: seq<byte>)
    requires len < MAX_LEN && Header(id, len) <= s
    ensures RawLen(s) == len && IdOf(s) == id % 256
  {
    var h := Header(id, len);
    assert s[0] == h[0] == HeaderByte(id, len, 0) && s[1] == h[1] && s[2] == h[2] && s[3] == h[3];
    Digits(len);
  }

  function Padded(id: nat, payload: seq<byte>): (r: seq<byte>)
    ensures |r| == Pad(4 + |payload|)
  {
    Header(id, 4 + |payload|) + payload + Zeros(Pad(4 + |payload|) - 4 - |payload|)
  }

  /** The bytes of an attribute, with its padding. */
  function Encode(a: Attr): seq<byte> {
    match a
    case Leaf(id, payload) => Padded(id, payload)
    case Nest(id, front, kids) => Padded(id, front + EncodeAll(kids))
  }

  function EncodeAll(kids: seq<Attr>): seq<byte> {
    if kids == [] then [] else Encode(kids[0]) + EncodeAll(kids[1..])
  }

  lemma {:induction false} EncodeAllMore(kids: seq<Attr>, a: Attr)
    ensures EncodeAll(kids + [a]) == EncodeAll(kids) + Encode(a)
  {
    if kids == [] {
      assert [a][1..] == [] && [] + [a] == [a] && Encode(a) + [] == Encode(a);
    } else {
      assert (kids + [a])[1..] == kids[1..] + [a] && (kids + [a])[0] == kids[0];
      EncodeAllMore(kids[1..], a);
      Associates(Encode(kids[0]), EncodeAll(kids[1..]), Encode(a));
    }
  }

  // ---- the iteration loops ----

  /** What an iteration sees of an attribute. */
  datatype Item = Item(id: nat, payload: seq<byte>)

  /** The loop condition: there is an attribute, and it fits. */
  predicate Present(s: seq<byte>) {
    |s| >= 4 && 4 <= Pad(RawLen(s)) <= |s|
  }

  function First(s: seq<byte>): Item
    requires Present(s)
  {
    Item(IdOf(s), if RawLen(s) < 4 then [] else s[4..RawLen(s)])
  }

  /** blob_for_each_attr over the bytes s: it stops where no attribute fits. */
  function Items(s: seq<byte>): seq<Item> {
    if Present(s) then [First(s)] + Items(s[Pad(RawLen(s))..]) else []
  }

  /** The iteration ends at a length of zero and where the padded length does not fit; otherwise the attribute is what
      its length covers. */
  lemma ItemsStart(s: seq<byte>)
    requires |s| >= 4
    ensures var n := s[1] as nat * 0x10000 + s[2] as nat * 0x100 + s[3] as nat;
            var m := 4 * ((n + 3) / 4);
            if n == 0 || m > |s| then Items(s) == []
            else Items(s) == [Item(s[0] as nat, if n < 4 then [] else s[4..n])] + Items(s[m..])
  {
    var n := RawLen(s);
    assert n == 0 ==> Pad(n) == 0;
    assert n > 0 ==> Pad(n) >= 4;
  }

  lemma ItemsNext(s: seq<byte>, done: seq<Item>)
    requires Present(s)
    ensures done + Items(s) == done + [First(s)] + Items(s[Pad(RawLen(s))..])
  {
  }

  method ForEach(s: seq<byte>) returns (items: seq<Item>)
    ensures items == Items(s)
  {
    items := [];
    var pos := s;
    while Present(pos)
      invariant Items(s) == items + Items(pos)
      decreases |pos|
    {
      ItemsNext(pos, items);
      items := items + [First(pos)];
      pos := pos[Pad(RawLen(pos))..];
    }
  }

  /** Every id has eight bits and every length twenty-four. */
  ghost predicate Sized(a: Attr) {
    a.id < 256 && |Encode(a)| < MAX_LEN && (a.Nest? ==> Fours(|a.front|) && AllSized(a.kids))
  }

  ghost predicate AllSized(kids: seq<Attr>) {
    forall k <- kids :: Sized(k)
  }

  /** What a reader that knows which attributes are nested finds in an item. */
  ghost predicate Shows(m: Item, a: Attr)
    decreases a, 1
  {
    && m.id == a.id
    && match a
       case Leaf(_, payload) => m.payload == payload
       case Nest(_, front, kids) => front <= m.payload && ShowsAll(Items(m.payload[|front|..]), kids)
  }

  ghost predicate ShowsAll(ms: seq<Item>, kids: seq<Attr>)
    decreases kids, 0
  {
    if kids == [] then ms == [] else ms != [] && Shows(ms[0], kids[0]) && ShowsAll(ms[1..], kids[1..])
  }

  /** What the loop sees of a padded attribute. */
  lemma FirstOf(id: nat, p: seq<byte>, rest: seq<byte>)
    requires id < 256 && 4 + |p| < MAX_LEN
    ensures var s := Padded(id, p) + rest; Present(s) && First(s) == Item(id, p) && s[Pad(RawLen(s))..] == rest
  {
    var s, n := Padded(id, p) + rest, 4 + |p|;
    assert Header(id, n) <= s;
    HeaderReads(id, n, s);
    assert s[4..n] == p && s[Pad(n)..] == rest;
  }

  /** One padded attribute is read back, and the iteration goes on behind it. */
  lemma ItemsStep(id: nat, payload: seq<byte>, rest: seq<byte>)
    requires id < 256 && 4 + |payload| < MAX_LEN
    ensures Items(Padded(id, payload) + rest) == [Item(id, payload)] + Items(rest)
  {
    FirstOf(id, payload, rest);
  }

  lemma EncodeAligned(a: Attr)
    ensures Fours(|Encode(a)|)
  {
  }

  lemma {:induction false} EncodeAllAligned(kids: seq<Attr>)
    ensures Fours(|EncodeAll(kids)|)
  {
    if kids == [] {
      NoneOrFour();
    } else {
      var x, y := Encode(kids[0]), EncodeAll(kids[1..]);
      EncodeAligned(kids[0]);
      EncodeAllAligned(kids[1..]);
      assert EncodeAll(kids) == x + y;
      SumAligned(|x|, |y|);
    }
  }

  /** Reading what was written shows the same tree. */
  lemma {:induction false} ShowsEncoded(a: Attr, rest: seq<byte>)
    requires Sized(a)
    ensures var ms := Items(Encode(a) + rest); ms != [] && Shows(ms[0], a) && ms[1..] == Items(rest)
    decreases a, 1
  {
    var payload := if a.Leaf? then a.payload else a.front + EncodeAll(a.kids);
    ItemsStep(a.id, payload, rest);
    assert ([Item(a.id, payload)] + Items(rest))[1..] == Items(rest);
    if a.Nest? {
      assert payload[|a.front|..] == EncodeAll(a.kids);
      ShowsAllEncoded(a.kids);
    }
  }

  lemma {:induction false} ShowsAllEncoded(kids: seq<Attr>)
    requires AllSized(kids)
    ensures ShowsAll(Items(EncodeAll(kids)), kids)
    decreases kids, 0
  {
    if kids != [] {
      ShowsEncoded(kids[0], EncodeAll(kids[1..]));
      assert forall k <- kids[1..] :: k in kids;
      ShowsAllEncoded(kids[1..]);
    }
  }
}
