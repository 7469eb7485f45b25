/** The buffers of ustream.c. */
module UstreamBuf {
  import opened Common
  import opened Bytes

  class Buf {
    var next: Buf?
    var data: nat
    var tail: nat
    const end: nat
    /** The memory from head to end. */
    var mem: seq<byte>

    constructor (len: nat)
      requires len > 0
      ensures Blank() && next == null && end == len
    {
      data, tail, next, end := 0, 0, null, len;
      mem := seq(len, _ => 0);
    }

    /** The cursors are in order, and a buffer that has been emptied is reset. */
    ghost predicate Ok()
      reads this`data, this`tail, this`mem
    {
      data <= tail <= end == |mem| && (data == tail ==> data == 0) && end > 0
    }

    ghost predicate Blank()
      reads this`data, this`tail, this`mem
    {
      Ok() && tail == 0
    }

    ghost predicate Full()
      reads this`data, this`tail, this`mem
    {
      Ok() && tail == end
    }

    ghost function Content(): seq<byte>
      requires Ok()
      reads this`data, this`tail, this`mem
    {
      mem[data..tail]
    }

    /** memmove in ustream_prepare_buf: the content moves to the start of the buffer. */
    method Compact()
      requires Ok() && data < tail
      modifies this`data, this`tail, this`mem
      ensures Ok() && data == 0 && tail == old(tail - data) && Content() == old(Content())
    {
      var len := tail - data;
      mem := mem[data..tail] + mem[len..];
      data, tail := 0, len;
    }

    /** memcpy in ustream_write_buffered, and what a reader puts into the reserved space. */
    method Append(src: seq<byte>)
      requires Ok() && tail + |src| <= end
      modifies this`tail, this`mem
      ensures Ok() && Content() == old(Content()) + src && tail == old(tail) + |src|
    {
      mem := mem[..tail] + src + mem[tail + |src|..];
      tail := tail + |src|;
    }

    /** Takes n bytes from the start of the content. */
    method Skip(n: nat)
      requires Ok() && n < tail - data
      modifies this`data
      ensures Ok() && Content() == old(Content())[n..]
    {
      data := data + n;
    }

    /** ustream_init_buf */
    method Reset()
      requires Ok()
      modifies this`data, this`tail, this`mem
      ensures Blank()
    {
      mem := mem[0 := 0];
      data, tail := 0, 0;
    }
  }

  /** No two buffers are the same. */
  ghost predicate Separate(chain: seq<Buf>) {
    forall i, j {:trigger Two(i, j)} :: Two(i, j) && 0 <= i < j < |chain| ==> chain[i] != chain[j]
  }

  /** The last buffer is none of the others. */
  lemma SeparateLast(chain: seq<Buf>)
    requires Separate(chain) && chain != []
    ensures forall i :: 0 <= i < |chain| - 1 ==> chain[i] != chain[|chain| - 1]
  {
    forall i | 0 <= i < |chain| - 1
      ensures chain[i] != chain[|chain| - 1]
    {
      assert Two(i, |chain| - 1);
    }
  }

  /** Each buffer points to the next one. */
  ghost predicate Nexted(chain: seq<Buf>)
    reads chain`next
  {
    forall i {:trigger chain[i].next} :: 0 <= i < |chain| ==>
                                           chain[i].next == if i + 1 < |chain| then chain[i + 1] else null
  }

  /** A buffer is none of the others. */
  lemma SeparateAt(chain: seq<Buf>, k: nat)
    requires Separate(chain) && k < |chain|
    ensures forall i :: 0 <= i < |chain| && i != k ==> chain[i] != chain[k]
  {
    forall i | 0 <= i < |chain| && i != k
      ensures chain[i] != chain[k]
    {
      assert Two(i, k) && Two(k, i);
    }
  }

  /** Hangs x behind the last buffer of a chain. */
  method Hang(last: Buf?, x: Buf, ghost chain: seq<Buf>)
    requires Separate(chain) && Nexted(chain) && x !in chain && last == if chain == [] then null else chain[|chain| - 1]
    modifies chain`next, x`next
    ensures Nexted(chain + [x]) && Separate(chain + [x])
  {
    if last != null {
      SeparateLast(chain);
      last.next := x;
    }
    x.next := null;
  }

  /** The buffers hold these parts of the stream. */
  ghost predicate Holding(chain: seq<Buf>, parts: seq<seq<byte>>)
    reads chain`data, chain`tail, chain`mem
  {
    |parts| == |chain| && forall i :: 0 <= i < |chain| ==> chain[i].Ok() && chain[i].Content() == parts[i]
  }

  /** Buffers before the d-th are full to their end and not empty, buffers after it are blank. */
  ghost predicate Packed(chain: seq<Buf>, d: nat)
    reads chain`data, chain`tail, chain`mem
  {
    (forall i :: 0 <= i < d && i < |chain| ==> chain[i].Full()) && (forall i :: d < i < |chain| ==> chain[i].Blank())
  }

  /** A blank buffer at the end changes nothing. */
  lemma {:induction false} MoreBlank(chain: seq<Buf>, parts: seq<seq<byte>>, d: nat, x: Buf)
    requires Packed(chain, d) && Holding(chain, parts) && x.Blank() && (d < |chain| || d == 0)
    ensures Packed(chain + [x], d) && Holding(chain + [x], parts + [[]])
    ensures Concat(parts + [[]]) == Concat(parts)
  {
    ConcatSum(parts, [[]]);
    assert Concat([[]]) == [];
  }

  /** Behind the d-th buffer there is nothing. */
  lemma EmptyBehind(chain: seq<Buf>, parts: seq<seq<byte>>, d: nat)
    requires Packed(chain, d) && Holding(chain, parts)
    ensures forall i :: d < i < |parts| ==> parts[i] == []
  {
    assert forall i :: d < i < |parts| ==> chain[i].Content() == parts[i];
  }

  /** If the first buffer is empty, all are. */
  lemma {:induction false} HeadFirst(chain: seq<Buf>, parts: seq<seq<byte>>, d: nat)
    requires Packed(chain, d) && Holding(chain, parts) && chain != [] && parts[0] == []
    ensures Concat(parts) == []
  {
    assert !chain[0].Full();
    EmptyBehind(chain, parts, d);
    ConcatEmpty(parts);
  }

  /** The chain without its first buffer. */
  lemma {:induction false} LessHead(chain: seq<Buf>, parts: seq<seq<byte>>, d: nat)
    requires Separate(chain) && Packed(chain, d) && Holding(chain, parts) && chain != []
    ensures Packed(chain[1..], if d == 0 then 0 else d - 1) && Holding(chain[1..], parts[1..])
    ensures Separate(chain[1..]) && chain[0] !in chain[1..]
  {
    var rest := chain[1..];
    assert forall i :: 0 <= i < |rest| ==> rest[i] == chain[i + 1];
    forall i, j {:trigger Two(i, j)} | Two(i, j) && 0 <= i < j < |rest|
      ensures rest[i] != rest[j]
    {
      assert Two(i + 1, j + 1);
    }
    forall i | 0 <= i < |rest|
      ensures rest[i] != chain[0]
    {
      assert Two(0, i + 1);
    }
  }

  function Concat(parts: seq<seq<byte>>): seq<byte> {
    if parts == [] then [] else parts[0] + Concat(parts[1..])
  }

  lemma {:induction false} ConcatSum(a: seq<seq<byte>>, b: seq<seq<byte>>)
    ensures Concat(a + b) == Concat(a) + Concat(b)
  {
    if a == [] {
      assert a + b == b;
    } else {
      assert (a + b)[1..] == a[1..] + b && (a + b)[0] == a[0];
      ConcatSum(a[1..], b);
      Associates(a[0], Concat(a[1..]), Concat(b));
    }
  }

  lemma SliceTwice<T>(s: seq<T>, k: nat, m: nat)
    requires k + m <= |s|
    ensures s[k..][m..] == s[k + m..]
  {
  }

  lemma {:induction false} ConcatEmpty(parts: seq<seq<byte>>)
    requires forall i :: 0 <= i < |parts| ==> parts[i] == []
    ensures Concat(parts) == []
  {
    if parts != [] {
      ConcatEmpty(parts[1..]);
    }
  }

  lemma {:induction false} ConcatSkip(parts: seq<seq<byte>>, n: nat)
    requires parts != [] && n <= |parts[0]|
    ensures Concat(parts[0 := parts[0][n..]]) == Concat(parts)[n..]
  {
    assert parts[0 := parts[0][n..]][1..] == parts[1..];
    assert (parts[0] + Concat(parts[1..]))[n..] == parts[0][n..] + Concat(parts[1..]);
  }

  /** Bytes that are added to the last part that is not empty go to the end of the stream. */
  lemma {:induction false} ConcatAdd(parts: seq<seq<byte>>, k: nat, src: seq<byte>)
    requires k < |parts| && forall i :: k < i < |parts| ==> parts[i] == []
    ensures Concat(parts[k := parts[k] + src]) == Concat(parts) + src
  {
    var a, b := parts[..k], parts[k + 1..];
    var now := parts[k := parts[k] + src];
    assert parts == a + ([parts[k]] + b) && now == a + ([parts[k] + src] + b);
    ConcatSum(a, [parts[k]] + b);
    ConcatSum(a, [parts[k] + src] + b);
    ConcatEmpty(b);
    assert ([parts[k]] + b)[1..] == b && ([parts[k] + src] + b)[1..] == b;
    assert Concat([parts[k]] + b) == parts[k] && Concat([parts[k] + src] + b) == parts[k] + src;
    Associates(Concat(a), parts[k], src);
  }

  /** The room in blank buffers. */
  ghost function Capacity(chain: seq<Buf>): nat {
    if chain == [] then 0 else chain[0].end + Capacity(chain[1..])
  }

  /** The capacities of the tails of a chain. */
  ghost predicate Rooms(chain: seq<Buf>, room: seq<nat>) {
    && |room| == |chain| + 1 && room[|chain|] == 0
    && forall i :: 0 <= i < |chain| ==> room[i] == chain[i].end + room[i + 1]
  }

  lemma {:induction false} RoomsOf(chain: seq<Buf>) returns (room: seq<nat>)
    ensures Rooms(chain, room) && forall i :: 0 <= i <= |chain| ==> room[i] == Capacity(chain[i..])
  {
    if chain == [] {
      room := [0];
    } else {
      var rest := RoomsOf(chain[1..]);
      room := [chain[0].end + rest[0]] + rest;
      assert chain[1..][0..] == chain[1..];
      forall i | 0 <= i <= |chain|
        ensures room[i] == Capacity(chain[i..])
      {
        if i > 0 {
          assert chain[1..][i - 1..] == chain[i..];
        } else {
          assert chain[0..] == chain;
        }
      }
    }
  }

  /** Bytes go over from what is left to what is done. */
  lemma Moved(s: seq<byte>, done: seq<byte>, left: seq<byte>, n: nat)
    requires n <= |left|
    ensures done + left == done + left[..n] + left[n..]
    ensures s + done + left[..n] == s + (done + left[..n])
  {
    assert left == left[..n] + left[n..];
  }

  lemma Farther(s: seq<byte>, data: seq<byte>, k: nat, n: nat)
    requires k + n <= |data|
    ensures s + data[..k] + data[k..][..n] == s + data[..k + n]
  {
  }
}
