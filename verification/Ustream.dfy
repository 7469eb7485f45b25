/** The buffer chains of a stream and the reads and writes that go through them (ustream.c). */
module Ustream {
  import opened Common
  import opened Bytes
  import opened UstreamBuf

  class BufList {
    var head: Buf?
    var dataTail: Buf?
    var tail: Buf?
    var dataBytes: int
    var buffers: int
    const minBuffers: int
    const maxBuffers: int
    const bufferLen: nat

    /** The buffers from head to tail, and the position of dataTail among them. */
    ghost var chain: seq<Buf>
    ghost var d: nat
    /** What each buffer holds. */
    ghost var parts: seq<seq<byte>>

    constructor (minBuffers: int, maxBuffers: int, bufferLen: nat)
      requires bufferLen > 0
      ensures Valid() && Stored() == [] && chain == []
      ensures this.minBuffers == minBuffers && this.maxBuffers == maxBuffers && this.bufferLen == bufferLen
    {
      head, dataTail, tail, dataBytes, buffers := null, null, null, 0, 0;
      this.minBuffers, this.maxBuffers, this.bufferLen := minBuffers, maxBuffers, bufferLen;
      chain, d, parts := [], 0, [];
    }

    /** The pointers agree with the chain. */
    ghost predicate Linked()
      reads this`head, this`dataTail, this`tail, this`buffers, this`chain, this`d, chain`next
    {
      && buffers == |chain| && bufferLen > 0 && Separate(chain) && Nexted(chain)
      && head == (if chain == [] then null else chain[0])
      && tail == (if chain == [] then null else chain[|chain| - 1])
      && (if chain == [] then dataTail == null && d == 0 else d < |chain| && dataTail == chain[d])
    }

    ghost function Stored(): seq<byte>
      reads this`parts
    {
      Concat(parts)
    }

    /** All of this together. (As one equation the verifier passes it on whole, not clause by clause.) */
    ghost predicate Sane()
      reads this`head, this`dataTail, this`tail, this`buffers, this`chain, this`d, this`parts, chain
    {
      (Linked() && Packed(chain, d) && Holding(chain, parts)) == true
    }

    ghost predicate Valid()
      reads this, chain
    {
      Sane() && dataBytes == |Stored()| && (maxBuffers > 0 ==> buffers <= maxBuffers)
    }

    /** ustream_can_alloc */
    predicate CanAlloc()
      reads this`buffers
    {
      maxBuffers <= 0 || buffers < maxBuffers
    }

    /** ustream_add_buf */
    method AddBuf(buf: Buf)
      requires Linked() && buf !in chain
      modifies `head, `dataTail, `tail, `buffers, `chain, `parts, chain`next, buf`next
      ensures Linked() && chain == old(chain) + [buf] && parts == old(parts) + [[]]
    {
      Hang(tail, buf, chain);
      buffers := buffers + 1;
      if tail == null {
        head := buf;
      }
      tail := buf;
      if dataTail == null {
        dataTail := head;
      }
      chain, parts := chain + [buf], parts + [[]];
    }

    /** Adding a blank buffer keeps the stream. */
    method AddBlank(buf: Buf)
      requires Sane() && buf !in chain && buf.Blank()
      modifies `head, `dataTail, `tail, `buffers, `chain, `parts, chain`next, buf`next
      ensures Sane()
      ensures chain == old(chain) + [buf] && parts == old(parts) + [[]] && Stored() == old(Stored())
    {
      ghost var before, held := chain, parts;
      AddBuf(buf);
      MoreBlank(before, held, d, buf);
    }

    /** The first half of ustream_free_buf: takes the first buffer out of the chain. */
    method Unlink() returns (buf: Buf)
      requires Linked() && chain != []
      requires |parts| == |chain|
      modifies `head, `dataTail, `tail, `buffers, `chain, `d, `parts
      ensures Linked() && buf == old(chain[0]) && chain == old(chain[1..]) && parts == old(parts[1..])
      ensures d == old(if d == 0 then 0 else d - 1) && buffers == old(buffers) - 1
    {
      buf := head;
      assert buf.next == if |chain| > 1 then chain[1] else null;
      UnlinkSafe(chain);
      head := buf.next;
      if buf == dataTail {
        dataTail := buf.next;
      }
      if buf == tail {
        tail := null;
      }
      buffers := buffers - 1;
      chain, parts, d := chain[1..], parts[1..], if d == 0 then 0 else d - 1;
    }

    lemma UnlinkSafe(chain: seq<Buf>)
      requires Separate(chain) && Nexted(chain) && chain != []
      ensures Separate(chain[1..]) && Nexted(chain[1..]) && forall i :: 0 < i < |chain| ==> chain[i] != chain[0]
    {
      var rest := chain[1..];
      assert forall i :: 0 <= i < |rest| ==> rest[i] == chain[i + 1];
      forall i, j {:trigger Two(i, j)} | Two(i, j) && 0 <= i < j < |rest|
        ensures rest[i] != rest[j]
      {
        assert Two(i + 1, j + 1);
      }
      forall i | 0 < i < |chain|
        ensures chain[i] != chain[0]
      {
        assert Two(0, i);
      }
    }

    /** The second half of ustream_free_buf: a buffer that is needed is reset and put at the end. */
    method Recycle(buf: Buf)
      requires Sane() && buf !in chain && buf.Ok()
      modifies `head, `dataTail, `tail, `buffers, `chain, `parts, chain`next, buf
      ensures Sane()
      ensures chain == old(chain) + [buf] && parts == old(parts) + [[]] && Stored() == old(Stored())
    {
      buf.Reset();
      AddBlank(buf);
    }

    /** ustream_free_buf on the first buffer */
    method FreeHead()
      requires Sane() && chain != []
      modifies `head, `dataTail, `tail, `buffers, `chain, `d, `parts, chain
      ensures Sane()
      ensures Stored() == Concat(old(parts[1..]))
      ensures buffers == if old(buffers) > minBuffers then old(buffers) - 1 else old(buffers)
      ensures head == old(chain[0].next) || old(|chain|) == 1
      ensures forall i :: 0 <= i < |chain| ==> chain[i] in old(chain)
    {
      ghost var c, p, k := chain, parts, d;
      var buf := Unlink();
      LessHead(c, p, k);
      if buffers < minBuffers {
        Recycle(buf);
      }
    }

    method SkipHead(n: nat)
      requires Sane() && chain != [] && n < |parts[0]|
      modifies `parts, chain`data
      ensures Sane() && parts == old(parts[0 := parts[0][n..]])
    {
      SeparateAt(chain, 0);
      parts := parts[0 := parts[0][n..]];
      head.Skip(n);
    }

    /** Drops the first n bytes of the first buffer, which holds more. */
    method Advance(n: nat)
      requires Sane() && chain != [] && n < |parts[0]|
      modifies `parts, chain`data
      ensures Sane() && Stored() == old(Stored())[n..]
    {
      ConcatSkip(parts, n);
      SkipHead(n);
    }

    /** Moves the content of dataTail to its start. */
    method CompactTail()
      requires Sane() && chain != [] && dataTail.data < dataTail.tail
      modifies chain`data, chain`tail, chain`mem
      ensures Sane()
      ensures dataTail.data == 0 && dataTail.tail == old(dataTail.tail - dataTail.data)
    {
      SeparateAt(chain, d);
      dataTail.Compact();
    }

    method GrowTail(src: seq<byte>)
      requires Sane() && chain != [] && dataTail.tail + |src| <= dataTail.end
      modifies `parts, chain`tail, chain`mem
      ensures Sane() && parts == old(parts[d := parts[d] + src])
      ensures dataTail.tail == old(dataTail.tail) + |src|
    {
      SeparateAt(chain, d);
      parts := parts[d := parts[d] + src];
      dataTail.Append(src);
    }

    /** Puts bytes behind the content of dataTail. */
    method AppendTail(src: seq<byte>)
      requires Sane() && chain != [] && dataTail.tail + |src| <= dataTail.end
      modifies `parts, chain`tail, chain`mem
      ensures Sane() && Stored() == old(Stored()) + src
      ensures dataTail.tail == old(dataTail.tail) + |src|
    {
      EmptyBehind(chain, parts, d);
      ConcatAdd(parts, d, src);
      GrowTail(src);
    }

    /** ustream_should_move on dataTail */
    predicate ShouldMove(buf: Buf, len: int)
      reads this`tail, this`buffers, buf`data, buf`tail
    {
      if buf.data == 0 then false
      else if buf.data > buf.end / 2 then true
      else if buf.tail - buf.data < 32 && buf.data > buf.end / 4 then true
      else if buf != tail || CanAlloc() then false
      else buf.end - buf.tail < len
    }

    /** dataTail is full and moves on to the blank buffer after it. */
    method NextTail()
      requires Sane() && chain != [] && dataTail.tail == dataTail.end && dataTail.next != null
      modifies `dataTail, `d
      ensures Sane() && chain != [] && dataTail.tail == 0 < dataTail.end && d == old(d) + 1
    {
      assert chain[d].next == if d + 1 < |chain| then chain[d + 1] else null;
      dataTail := dataTail.next;
      d := d + 1;
    }

    /** dataTail, if it is full or not the last, becomes the blank buffer at the end. */
    method LastTail()
      requires Linked() && Packed(chain, d) && chain != [] && chain[|chain| - 1].Blank()
      requires d == |chain| - 1 || (d == |chain| - 2 && chain[d].Full())
      modifies `dataTail, `d
      ensures Linked() && Packed(chain, d) && dataTail.tail < dataTail.end
    {
      dataTail := tail;
      d := |chain| - 1;
    }

    /** ustream_alloc_default, and the new buffer becomes dataTail, because there was none or the last one is full. */
    method AllocTail()
      requires Sane() && CanAlloc()
      requires chain != [] ==> d == |chain| - 1 && dataTail.tail == dataTail.end
      modifies `head, `dataTail, `tail, `buffers, `chain, `d, `parts, chain`next
      ensures Sane() && chain != [] && dataTail.tail < dataTail.end
      ensures Stored() == old(Stored()) && buffers == old(buffers) + 1
      ensures forall i :: 0 <= i < |chain| ==> chain[i] in old(chain) || fresh(chain[i])
    {
      var buf := new Buf(bufferLen);
      assert chain != [] ==> chain[d].Full();
      AddBlank(buf);
      LastTail();
    }

    /** ustream_prepare_buf: after success there is room in dataTail; it fails only if every buffer is in use. */
    method PrepareBuf(len: int) returns (ok: bool)
      requires Valid() && len > 0
      modifies this, chain
      ensures Valid() && Stored() == old(Stored())
      ensures ok ==> chain != [] && dataTail.tail < dataTail.end
      ensures !ok ==> Exhausted()
      ensures forall i :: 0 <= i < |chain| ==> chain[i] in old(chain) || fresh(chain[i])
    {
      var buf := dataTail;
      if buf != null {
        if ShouldMove(buf, len) {
          CompactTail();
        }
        if buf.tail != buf.end {
          return true;
        }
        assert chain[d].next == if d + 1 < |chain| then chain[d + 1] else null;
        if buf.next != null {
          NextTail();
          return true;
        }
      }
      if !CanAlloc() {
        return false;
      }
      AllocTail();
      return true;
    }

    /** Some of n buffers are left, and no fewer than the minimum. */
    ghost predicate Shrunk(n: int)
      reads this`buffers
    {
      buffers <= n && (buffers < n ==> buffers >= minBuffers)
    }

    /** The loop of ustream_consume: takes n bytes from the front. */
    method Take(n: nat)
      requires Sane() && n <= |Stored()|
      modifies `head, `dataTail, `tail, `buffers, `chain, `d, `parts, chain
      ensures Sane()
      ensures Stored() == old(Stored())[n..] && Shrunk(old(buffers))
      ensures forall i :: 0 <= i < |chain| ==> chain[i] in old(chain)
    {
      var buf, left: nat := head, n;
      ghost var all, most := Stored(), buffers;
      while left > 0
        invariant Sane() && Shrunk(most)
        invariant left <= n <= |all| && Stored() == all[n - left..]
        invariant left > 0 ==> buf == head
        invariant forall i :: 0 <= i < |chain| ==> chain[i] in old(chain)
        decreases left
      {
        buf, left := TakeNext(left, all, n, most);
      }
    }

    method TakeNext(left: nat, ghost all: seq<byte>, ghost n: nat, ghost most: int) returns (next: Buf?, now: nat)
      requires Sane() && Shrunk(most) && 0 < left <= n <= |all| && Stored() == all[n - left..]
      modifies `head, `dataTail, `tail, `buffers, `chain, `d, `parts, chain
      ensures Sane() && Shrunk(most) && now < left && Stored() == all[n - now..] && (now > 0 ==> next == head)
      ensures forall i :: 0 <= i < |chain| ==> chain[i] in old(chain)
    {
      var taken;
      next, taken := TakeHead(left);
      SliceTwice(all, n - left, taken);
      now := left - taken;
    }

    /** One round: as much of the first buffer as is wanted; a buffer that is used up goes. */
    method TakeHead(left: nat) returns (next: Buf?, taken: nat)
      requires Sane() && 0 < left <= |Stored()|
      modifies `head, `dataTail, `tail, `buffers, `chain, `d, `parts, chain
      ensures Sane() && Shrunk(old(buffers))
      ensures 0 < taken <= left && Stored() == old(Stored())[taken..]
      ensures taken < left ==> next == head
      ensures forall i :: 0 <= i < |chain| ==> chain[i] in old(chain)
    {
      assert chain != [];
      assert chain[0].next == if 1 < |chain| then chain[1] else null;
      next := head.next;
      var bufLen := head.tail - head.data;
      assert bufLen == |parts[0]|;
      if left < bufLen {
        Advance(left);
        return next, left;
      }
      ghost var rest := Concat(parts[1..]);
      assert Stored()[bufLen..] == rest;
      if parts[0] == [] {
        HeadFirst(chain, parts, d);
      }
      FreeHead();
      return next, bufLen;
    }

    /** ustream_consume; taking more than there is aborts. */
    method Consume(len: nat)
      requires Valid() && len <= dataBytes
      modifies this, chain
      ensures Valid() && Stored() == old(Stored())[len..] && Shrunk(old(buffers))
      ensures forall i :: 0 <= i < |chain| ==> chain[i] in old(chain)
    {
      if len == 0 {
        return;
      }
      dataBytes := dataBytes - len;
      Take(len);
    }

    /** ustream_get_read_buf: the bytes in the first buffer, which is empty only if there are none. */
    method ReadBuf() returns (data: seq<byte>)
      requires Valid()
      ensures data <= Stored() && (data == [] ==> Stored() == []) && (data != [] ==> head != null)
      ensures data == if chain == [] then [] else chain[0].Content()
    {
      if head == null {
        return [];
      }
      data := head.mem[head.data..head.tail];
      assert data == chain[0].Content() == parts[0];
      if data == [] {
        HeadFirst(chain, parts, d);
      }
    }

    /** ustream_reserve: the room that is granted is never zero, unless the buffers have run out. */
    method Reserve(len: int) returns (maxlen: nat)
      requires Valid() && len > 0
      modifies this, chain
      ensures Valid() && Stored() == old(Stored())
      ensures if maxlen == 0 then Exhausted() else chain != [] && maxlen == dataTail.end - dataTail.tail <= Room()
      ensures forall i :: 0 <= i < |chain| ==> chain[i] in old(chain) || fresh(chain[i])
    {
      var ok := PrepareBuf(len);
      maxlen := if ok then dataTail.end - dataTail.tail else 0;
    }

    /** The free space from dataTail on. */
    ghost function Room(): int
      requires chain != [] && dataTail != null && d < |chain|
      reads this`chain, this`d, this`dataTail, dataTail`tail
    {
      dataTail.end - dataTail.tail + Capacity(chain[d + 1..])
    }

    /** As much as fits into dataTail, with room for `more` bytes behind it. */
    method FillTail(left: seq<byte>, ghost more: nat) returns (n: nat)
      requires Sane() && chain != [] && |left| <= dataTail.end - dataTail.tail + more
      modifies `parts, chain`tail, chain`mem
      ensures Sane() && n <= |left| && Stored() == old(Stored()) + left[..n]
      ensures n < |left| ==> dataTail.tail == dataTail.end && |left| - n <= more
    {
      var room := dataTail.end - dataTail.tail;
      n := if |left| < room then |left| else room;
      AppendTail(left[..n]);
    }

    /** dataTail moves on, and what is left fits from there on. */
    method StepTail(ghost left: nat, ghost more: nat)
      requires Sane() && chain != [] && dataTail.tail == dataTail.end && 0 < left && d + 1 < |chain|
      requires left <= chain[d + 1].end + more
      modifies `dataTail, `d
      ensures Sane() && d == old(d) + 1 && left <= dataTail.end - dataTail.tail + more
    {
      assert chain[d].next == if d + 1 < |chain| then chain[d + 1] else null;
      NextTail();
    }

    /** One round of ustream_fill_read; room[i] is the capacity of the buffers from the i-th on. */
    method FillSome(left: seq<byte>, ghost room: seq<nat>) returns (n: nat)
      requires Sane() && chain != [] && Rooms(chain, room) && |left| <= dataTail.end - dataTail.tail + room[d + 1]
      modifies `parts, `dataTail, `d, chain`tail, chain`mem
      ensures Sane() && n <= |left| && Stored() == old(Stored()) + left[..n]
      ensures n < |left| ==> d == old(d) + 1 && |left| - n <= dataTail.end - dataTail.tail + room[d + 1]
    {
      ghost var more := room[d + 1];
      n := FillTail(left, more);
      if n < |left| {
        assert d + 1 < |chain| && room[d + 1] == chain[d + 1].end + room[d + 2];
        StepTail(|left| - n, room[d + 2]);
      }
    }

    /** The loop of ustream_fill_read. */
    method FillAll(bytes: seq<byte>, ghost room: seq<nat>)
      requires Sane() && chain != [] && Rooms(chain, room) && |bytes| <= dataTail.end - dataTail.tail + room[d + 1]
      modifies `parts, `dataTail, `d, chain`tail, chain`mem
      ensures Sane() && Stored() == old(Stored()) + bytes
    {
      var left := bytes;
      ghost var was, done: seq<byte> := Stored(), [];
      while true
        invariant Sane() && done + left == bytes && Stored() == was + done
        invariant |left| <= dataTail.end - dataTail.tail + room[d + 1]
        decreases |chain| - d
      {
        var n := FillSome(left, room);
        Moved(was, done, left, n);
        done, left := done + left[..n], left[n..];
        if left == [] {
          assert done == bytes;
          break;
        }
      }
    }

    /** ustream_fill_read: the reader has put bytes into the free space from dataTail on. */
    method FillRead(bytes: seq<byte>)
      requires Valid() && chain != [] && |bytes| <= Room()
      modifies `dataBytes, `parts, `dataTail, `d, chain`tail, chain`mem
      ensures Valid() && Stored() == old(Stored()) + bytes
    {
      ghost var room := RoomsOf(chain);
      dataBytes := dataBytes + |bytes|;
      FillAll(bytes, room);
    }

    /** One round of ustream_write_buffered, when there is room. */
    method PutSome(data: seq<byte>) returns (n: nat)
      requires Sane() && chain != [] && dataTail.tail < dataTail.end && data != []
      modifies `parts, chain`tail, chain`mem
      ensures Sane() && 0 < n <= |data| && Stored() == old(Stored()) + data[..n]
    {
      var room := dataTail.end - dataTail.tail;
      n := if room > |data| then |data| else room;
      AppendTail(data[..n]);
    }

    method PutCounted(data: seq<byte>) returns (n: nat)
      requires Valid() && chain != [] && dataTail.tail < dataTail.end && data != []
      modifies `dataBytes, `parts, chain`tail, chain`mem
      ensures Valid() && 0 < n <= |data| && Stored() == old(Stored()) + data[..n]
    {
      n := PutSome(data);
      dataBytes := dataBytes + n;
    }

    /** Every buffer is in use and the last one full. */
    ghost predicate Exhausted()
      reads this, dataTail
    {
      0 < maxBuffers == buffers && dataTail == tail != null && dataTail.data == 0 && dataTail.tail == dataTail.end
    }

    /** One round of ustream_write_buffered; it takes nothing if the buffers have run out. */
    method PutRound(data: seq<byte>) returns (n: nat)
      requires Valid() && data != []
      modifies this, chain
      ensures Valid() && n <= |data| && Stored() == old(Stored()) + data[..n] && (n == 0 ==> Exhausted())
      ensures forall i :: 0 <= i < |chain| ==> chain[i] in old(chain) || fresh(chain[i])
    {
      var ok := PrepareBuf(|data|);
      if !ok {
        return 0;
      }
      n := PutCounted(data);
    }

    /** ustream_write_buffered: takes all of the data, unless the buffers run out. */
    method Put(data: seq<byte>) returns (wr: nat)
      requires Valid()
      modifies this, chain
      ensures Valid() && wr <= |data| && Stored() == old(Stored()) + data[..wr] && (wr < |data| ==> Exhausted())
      ensures forall i :: 0 <= i < |chain| ==> chain[i] in old(chain) || fresh(chain[i])
    {
      wr := 0;
      ghost var was := Stored();
      var more := true;
      while wr < |data| && more
        invariant Valid() && wr <= |data| && Stored() == was + data[..wr] && (more || Exhausted())
        invariant forall i :: 0 <= i < |chain| ==> chain[i] in old(chain) || fresh(chain[i])
        decreases |data| - wr, more
      {
        wr, more := PutNext(data, wr, was);
      }
    }

    /** One round, seen from the start. */
    method PutNext(data: seq<byte>, wr: nat, ghost was: seq<byte>) returns (now: nat, more: bool)
      requires Valid() && wr < |data| && Stored() == was + data[..wr]
      modifies this, chain
      ensures Valid() && now <= |data| && Stored() == was + data[..now]
      ensures if more then wr < now else wr == now && Exhausted()
      ensures forall i :: 0 <= i < |chain| ==> chain[i] in old(chain) || fresh(chain[i])
    {
      var n := PutRound(data[wr..]);
      Farther(was, data, wr, n);
      return wr + n, n > 0;
    }
  }
}
