/** The transmit queue of a ubusd client and the reference counts of the messages in it (ubusd.c). */
module UbusTx {
  import opened Bytes

  /** struct ubus_msg_buf: header and data, which do not change once the message has been sent. A shared message uses
      the data of somebody else. */
  class Msg {
    const bytes: seq<byte>
    var refcount: int
    var shared: bool
    var freed: bool
    /** Who holds a reference: the sender, and for each queue slot with the message the client whose slot it is. */
    ghost var handle: bool
    ghost var holders: multiset<Client>

    /** ubus_msg_new */
    constructor (bytes: seq<byte>, shared: bool)
      requires bytes != []
      ensures Sane() && this.bytes == bytes && this.shared == shared && handle && holders == multiset{} && !freed
    {
      this.bytes, this.shared, refcount, freed, handle, holders := bytes, shared, 1, false, true, multiset{};
    }

    ghost function Refs(): nat
      reads this`handle, this`holders
    {
      (if handle then 1 else 0) + |holders|
    }

    /** The count is right, and the message is freed exactly when nothing refers to it. */
    ghost predicate Sane()
      reads this
    {
      && bytes != [] && (freed <==> Refs() == 0)
      && (!freed ==> if shared then handle && holders == multiset{} else refcount == Refs())
    }

    /** ubus_msg_ref, for a new slot of a client; a shared message gets its own data first. */
    method Ref(ghost c: Client)
      requires Sane() && !freed
      modifies this`refcount, this`shared, this`holders
      ensures Sane() && !freed && holders == old(holders) + multiset{c}
    {
      if shared {
        shared, refcount := false, 1;
      }
      refcount := refcount + 1;
      holders := holders + multiset{c};
    }

    /** ubus_msg_free, when a slot of a client lets go: the last reference frees the message. */
    method Unref(ghost c: Client)
      requires Sane() && holders[c] > 0
      modifies this`refcount, this`freed, this`holders
      ensures Sane() && holders == old(holders) - multiset{c} && (freed <==> Refs() == 0)
    {
      assert holders == holders - multiset{c} + multiset{c};
      holders := holders - multiset{c};
      if refcount == 1 {
        freed := true;
      } else {
        refcount := refcount - 1;
      }
    }

    /** The same for the handle of the sender, which a shared message ends with. */
    method Release()
      requires Sane() && handle
      modifies this`refcount, this`freed, this`handle
      ensures Sane() && !handle && (freed <==> holders == multiset{})
    {
      handle := false;
      if shared || refcount == 1 {
        freed := true;
      } else {
        refcount := refcount - 1;
      }
    }
  }

  const SLOTS: nat := 1024

  function Concat(q: seq<Msg>): seq<byte> {
    if q == [] then [] else q[0].bytes + Concat(q[1..])
  }

  lemma {:induction false} ConcatMore(q: seq<Msg>, m: Msg)
    ensures Concat(q + [m]) == Concat(q) + m.bytes
  {
    if q == [] {
      assert [m][1..] == [] && [] + [m] == [m] && m.bytes + [] == m.bytes;
    } else {
      assert (q + [m])[1..] == q[1..] + [m] && (q + [m])[0] == q[0];
      ConcatMore(q[1..], m);
      assert q[0].bytes + (Concat(q[1..]) + m.bytes) == q[0].bytes + Concat(q[1..]) + m.bytes;
    }
  }

  /** More of the first message goes out. */
  lemma ConcatSkip(q: seq<Msg>, ofs: nat, n: nat)
    requires q != [] && ofs + n <= |q[0].bytes|
    ensures ofs + n <= |Concat(q)| && Concat(q)[ofs..] == q[0].bytes[ofs..ofs + n] + Concat(q)[ofs + n..]
    ensures ofs + n == |q[0].bytes| ==> Concat(q)[ofs + n..] == Concat(q[1..])
  {
    assert Concat(q)[ofs..ofs + n] == q[0].bytes[ofs..ofs + n];
  }

  /** What has been written is what has been sent, but for what is queued. */
  ghost predicate InStep(q: seq<Msg>, ofs: nat, wire: seq<byte>, sent: seq<byte>) {
    if q == [] then sent == wire else ofs < |q[0].bytes| && ofs <= |Concat(q)| && sent == wire + Concat(q)[ofs..]
  }

  /** A message is queued behind others. */
  lemma StepQueued(q: seq<Msg>, ofs: nat, wire: seq<byte>, sent: seq<byte>, m: Msg)
    requires InStep(q, ofs, wire, sent) && q != []
    ensures InStep(q + [m], ofs, wire, sent + m.bytes)
  {
    ConcatMore(q, m);
    var c := Concat(q);
    assert (c + m.bytes)[ofs..] == c[ofs..] + m.bytes;
    assert wire + (c[ofs..] + m.bytes) == wire + c[ofs..] + m.bytes;
  }

  /** The start of a message is written, and the rest queued. */
  lemma StepDirect(wire: seq<byte>, m: Msg, n: nat)
    requires n < |m.bytes|
    ensures InStep([m], n, wire + m.bytes[..n], wire + m.bytes)
  {
    assert [m][1..] == [] && Concat([m]) == m.bytes + [] == m.bytes;
    assert m.bytes == m.bytes[..n] + m.bytes[n..];
    assert wire + (m.bytes[..n] + m.bytes[n..]) == wire + m.bytes[..n] + m.bytes[n..];
  }

  /** More of the first message is written, perhaps the last of it. */
  lemma StepWrite(q: seq<Msg>, ofs: nat, wire: seq<byte>, sent: seq<byte>, n: nat)
    requires InStep(q, ofs, wire, sent) && q != [] && ofs + n <= |q[0].bytes| && (forall m <- q :: m.bytes != [])
    ensures var now := wire + q[0].bytes[ofs..ofs + n];
            if ofs + n < |q[0].bytes| then InStep(q, ofs + n, now, sent) else InStep(q[1..], 0, now, sent)
  {
    ConcatSkip(q, ofs, n);
    var a, b := q[0].bytes[ofs..ofs + n], Concat(q)[ofs + n..];
    assert wire + (a + b) == wire + a + b;
    if ofs + n == |q[0].bytes| {
      var rest := q[1..];
      assert rest != [] ==> rest[0] in q;
      assert Concat(rest)[0..] == Concat(rest);
      assert rest == [] ==> wire + a + [] == wire + a;
    }
  }

  /** How often a message is queued. */
  ghost function Times(q: seq<Msg>, m: Msg): nat { multiset(q)[m] }

  lemma TimesMore(q: seq<Msg>, m: Msg, x: Msg)
    ensures Times(q + [m], x) == Times(q, x) + if x == m then 1 else 0
  {
  }

  lemma TimesLess(q: seq<Msg>, x: Msg)
    requires q != []
    ensures Times(q, x) == Times(q[1..], x) + if x == q[0] then 1 else 0
  {
    assert q == [q[0]] + q[1..];
  }

  /** Positions in the ring. */
  function Slot(cur: nat, i: nat): int { if cur + i < SLOTS then cur + i else cur + i - SLOTS }

  /** They wrap around. */
  lemma SlotWraps(cur: nat, i: nat)
    requires cur < SLOTS && i <= SLOTS
    ensures Slot(cur, i) == (cur + i) % SLOTS
  {
  }

  lemma SlotNext(cur: nat, i: nat)
    requires cur < SLOTS && i < SLOTS
    ensures Slot(Slot(cur, 1), i) == if i + 1 < SLOTS then Slot(cur, i + 1) else cur
    ensures Slot(cur, 0) == cur && Slot(Slot(cur, i), 1) == Slot(cur, i + 1)
  {
  }

  /** The tail stays where it is when the first slot is freed. */
  lemma TailStays(cur: nat, n: nat)
    requires cur < SLOTS && 0 < n <= SLOTS
    ensures (cur + 1) % SLOTS == Slot(cur, 1) && Slot((cur + 1) % SLOTS, n - 1) == Slot(cur, n)
  {
    SlotNext(cur, n - 1);
    SlotWraps(cur, 1);
  }

  /** The queue lies in the ring from cur on, and nothing else does. */
  ghost predicate Laid(r: seq<Msg?>, cur: nat, q: seq<Msg>) {
    (&& |r| == SLOTS && cur < SLOTS && |q| <= SLOTS
     && (forall i :: 0 <= i < SLOTS ==> r[Slot(cur, i)] == if i < |q| then q[i] else null)) == true
  }

  lemma LaidMore(r: seq<Msg?>, cur: nat, q: seq<Msg>, m: Msg)
    requires Laid(r, cur, q) && |q| < SLOTS
    ensures r[Slot(cur, |q|)] == null && Laid(r[Slot(cur, |q|) := m], cur, q + [m])
  {
    var now := r[Slot(cur, |q|) := m];
    forall i | 0 <= i < SLOTS
      ensures now[Slot(cur, i)] == if i < |q + [m]| then (q + [m])[i] else null
    {
      assert i != |q| ==> Slot(cur, i) != Slot(cur, |q|);
    }
  }

  lemma LaidLess(r: seq<Msg?>, cur: nat, q: seq<Msg>)
    requires Laid(r, cur, q) && q != []
    ensures r[cur] == q[0] && Laid(r[cur := null], Slot(cur, 1), q[1..])
  {
    var now := r[cur := null];
    SlotNext(cur, 0);
    assert r[Slot(cur, 0)] == q[0];
    forall i | 0 <= i < SLOTS
      ensures now[Slot(Slot(cur, 1), i)] == if i < |q[1..]| then q[1..][i] else null
    {
      SlotNext(cur, i);
    }
  }

  class Client {
    const ring: array<Msg?>
    var cur: nat
    var tail: nat
    var ofs: nat
    /** What has gone to the socket, and whether it took less than was offered last. */
    var wire: seq<byte>
    var blocked: bool
    /** The queued messages, and all bytes of all messages in the order they were sent. */
    ghost var queue: seq<Msg>
    ghost var sent: seq<byte>

    constructor ()
      ensures Valid() && fresh(ring) && queue == [] && wire == [] && sent == []
    {
      ring := new Msg?[SLOTS](_ => null);
      cur, tail, ofs, wire, blocked, queue, sent := 0, 0, 0, [], false, [], [];
    }

    ghost predicate Ringed()
      reads this`cur, this`tail, this`queue, ring
    {
      Laid(ring[..], cur, queue) && tail == Slot(cur, |queue|)
    }

    ghost predicate Valid()
      reads this, ring
    {
      Ringed() && InStep(queue, ofs, wire, sent)
    }

    /** All messages are counted right, with a reference for each slot of this client. */
    ghost predicate Holds(all: set<Msg>)
      reads this`queue, all
    {
      (forall m <- queue :: m in all) && forall m <- all :: m.Sane() && m.holders[this] == Times(queue, m)
    }

    /** The references to the messages apart from those of this client. */
    ghost predicate Apart(all: set<Msg>, rest: map<Msg, multiset<Client>>)
      reads all`holders
    {
      forall m <- all :: m in rest && m.holders[this := 0] == rest[m]
    }

    /** What has been written is a prefix of what has been sent. */
    lemma WireIsPrefix()
      requires Valid()
      ensures wire <= sent
    {
    }

    /** ubus_msg_head */
    lemma Head()
      requires Ringed()
      ensures ring[cur] == if queue == [] then null else queue[0]
    {
      SlotNext(cur, 0);
      assert ring[..][Slot(cur, 0)] == ring[cur];
    }

    /** The slot at the tail is taken exactly if all slots are. */
    lemma TailTaken()
      requires Ringed()
      ensures tail < SLOTS && (ring[tail] != null <==> |queue| == SLOTS)
    {
      assert ring[..][Slot(cur, if |queue| < SLOTS then |queue| else 0)] == ring[tail];
    }

    /** The ring part of ubus_msg_enqueue */
    method Append(m: Msg)
      requires Ringed() && |queue| < SLOTS
      modifies this`tail, this`queue, ring
      ensures Ringed() && queue == old(queue) + [m]
    {
      LaidMore(ring[..], cur, queue, m);
      SlotNext(cur, |queue|);
      ring[tail] := m;
      SlotWraps(tail, 1);
      tail := (tail + 1) % SLOTS;
      queue := queue + [m];
    }

    /** ubus_msg_enqueue; if the queue is full, the process aborts. */
    method Enqueue(m: Msg, ghost all: set<Msg>) returns (ok: bool)
      requires Ringed() && Holds(all) && m in all && !m.freed
      modifies this`tail, this`queue, ring, m`refcount, m`shared, m`holders
      ensures Ringed() && Holds(all) && !m.freed && m.holders[this := 0] == old(m.holders[this := 0])
      ensures ok == (old(|queue|) < SLOTS) && queue == if ok then old(queue) + [m] else old(queue)
    {
      TailTaken();
      if ring[tail] != null {
        return false;
      }
      ghost var q := queue;
      Append(m);
      m.Ref(this);
      forall x | x in all
        ensures x.Sane() && x.holders[this] == Times(queue, x)
      {
        TimesMore(q, m, x);
      }
      return true;
    }

    method Clear()
      requires cur < ring.Length
      modifies ring
      ensures ring[..] == old(ring[..])[cur := null]
    {
      ring[cur] := null;
    }

    /** The ring part of ubus_msg_dequeue */
    method Advance()
      requires Ringed() && queue != []
      modifies this`cur, this`ofs, this`queue, ring
      ensures Ringed() && queue == old(queue)[1..] && ofs == 0
    {
      LaidLess(ring[..], cur, queue);
      TailStays(cur, |queue|);
      Clear();
      ofs := 0;
      cur := (cur + 1) % SLOTS;
      queue := queue[1..];
    }

    /** ubus_msg_dequeue: the slot lets go of the message. */
    method Dequeue(ghost all: set<Msg>, ghost rest: map<Msg, multiset<Client>>)
      requires Ringed() && Holds(all) && Apart(all, rest) && queue != []
      modifies this`cur, this`ofs, this`queue, ring, queue[..1]`refcount, queue[..1]`freed, queue[..1]`holders
      ensures Ringed() && Holds(all) && Apart(all, rest) && queue == old(queue)[1..] && ofs == 0
    {
      ghost var q := queue;
      Head();
      var m := ring[cur];
      assert m in q;
      m.Unref(this);
      Advance();
      forall x | x in all
        ensures x.Sane() && x.holders[this] == Times(queue, x)
      {
        TimesLess(q, x);
      }
    }

    /** ubus_msg_writev: the socket takes any part of the rest of a message, or nothing, or fails. */
    method Writev(data: seq<byte>, offset: nat) returns (written: int)
      requires offset <= |data|
      modifies this`wire, this`blocked
      ensures -1 <= written <= |data| - offset && blocked == (written < |data| - offset)
      ensures wire == if written < 0 then old(wire) else old(wire) + data[offset..offset + written]
    {
      written :| -1 <= written <= |data| - offset;
      blocked := written < |data| - offset;
      if written >= 0 {
        wire := wire + data[offset..offset + written];
      }
    }

    /** ubus_msg_send on an empty queue: what the socket does not take is queued. */
    method PassDirect(m: Msg, ghost all: set<Msg>)
      requires Valid() && queue == [] && Holds(all) && m in all && !m.freed
      modifies this, ring, m`refcount, m`shared, m`holders
      ensures Valid() && Holds(all) && !m.freed && m.holders[this := 0] == old(m.holders[this := 0])
      ensures sent == old(sent) + m.bytes && queue == if blocked then [m] else []
    {
      var written := Writev(m.bytes, 0);
      sent := sent + m.bytes;
      if written < 0 {
        written := 0;
      } else if written == |m.bytes| {
        assert m.bytes[0..written] == m.bytes;
        return;
      }
      StepDirect(old(wire), m, written);
      assert m.bytes[0..0 + written] == m.bytes[..written] && old(wire) + m.bytes[..0] == old(wire);
      ofs := written;
      assert [] + [m] == [m];
      var ok := Enqueue(m, all);
    }

    /** ubus_msg_send behind other messages */
    method PassQueued(m: Msg, ghost all: set<Msg>) returns (ok: bool)
      requires Valid() && queue != [] && Holds(all) && m in all && !m.freed
      modifies this`tail, this`queue, this`sent, ring, m`refcount, m`shared, m`holders
      ensures Valid() && Holds(all) && !m.freed && m.holders[this := 0] == old(m.holders[this := 0])
      ensures ok == (old(|queue|) < SLOTS) && sent == (if ok then old(sent) + m.bytes else old(sent))
      ensures queue == if ok then old(queue) + [m] else old(queue)
    {
      StepQueued(queue, ofs, wire, sent, m);
      ok := Enqueue(m, all);
      if ok {
        sent := sent + m.bytes;
      }
    }

    /** ubus_msg_send up to the sender's handle: all of the message is sent or queued, in order; if the queue is full,
        the process aborts. */
    method Pass(m: Msg, ghost all: set<Msg>) returns (ok: bool)
      requires Valid() && Holds(all) && m in all && !m.freed
      modifies this, ring, m`refcount, m`shared, m`holders
      ensures Valid() && Holds(all) && !m.freed && m.holders[this := 0] == old(m.holders[this := 0])
      ensures ok == (old(|queue|) < SLOTS) && sent == if ok then old(sent) + m.bytes else old(sent)
      ensures old(queue) == [] ==> queue == if blocked then [m] else []
      ensures old(queue) != [] ==> queue == if ok then old(queue) + [m] else old(queue)
    {
      Head();
      if ring[cur] == null {
        PassDirect(m, all);
        return true;
      }
      ok := PassQueued(m, all);
    }

    /** Writes more of the first message; returns whether that was the last of it. */
    method WriteHead(m: Msg) returns (done: bool)
      requires queue != [] && m == queue[0] && InStep(queue, ofs, wire, sent) && forall x <- queue :: x.bytes != []
      modifies this`wire, this`ofs, this`blocked
      ensures blocked == !done && if done then InStep(queue[1..], 0, wire, sent) else InStep(queue, ofs, wire, sent)
    {
      ghost var before := wire;
      var written := Writev(m.bytes, ofs);
      if written < 0 {
        return false;
      }
      StepWrite(queue, ofs, before, sent, written);
      ofs := ofs + written;
      return ofs >= |m.bytes|;
    }

    /** The first message goes on. */
    method FlushHead(ghost all: set<Msg>, ghost rest: map<Msg, multiset<Client>>) returns (more: bool)
      requires Valid() && queue != [] && Holds(all) && Apart(all, rest)
      modifies this, ring, queue[..1]`refcount, queue[..1]`freed, queue[..1]`holders
      ensures Valid() && Holds(all) && Apart(all, rest)
      ensures sent == old(sent) && blocked == !more && queue == if more then old(queue)[1..] else old(queue)
    {
      Head();
      more := WriteHead(ring[cur]);
      if more {
        Dequeue(all, rest);
      }
    }

    /** One round of the transmit loop in client_cb; false when it ends. */
    method FlushOne(ghost all: set<Msg>, ghost rest: map<Msg, multiset<Client>>) returns (more: bool)
      requires Valid() && Holds(all) && Apart(all, rest)
      modifies this, ring, all`refcount, all`freed, all`holders
      ensures Valid() && Holds(all) && Apart(all, rest) && sent == old(sent)
      ensures if more then old(queue) != [] && queue == old(queue)[1..]
              else queue == old(queue) && (queue == [] || blocked)
    {
      Head();
      more := ring[cur] != null;
      if more {
        assert queue[0] in queue;
        more := FlushHead(all, rest);
      }
    }

    /** The transmit half of client_cb: it goes on until nothing is queued or the socket takes no more, and the
        messages that are out are let go. */
    method Flush(ghost all: set<Msg>, ghost rest: map<Msg, multiset<Client>>)
      requires Valid() && Holds(all) && Apart(all, rest)
      modifies this, ring, all`refcount, all`freed, all`holders
      ensures Valid() && Holds(all) && Apart(all, rest) && sent == old(sent) && (queue == [] || blocked)
    {
      var more := true;
      while more
        invariant Valid() && Holds(all) && Apart(all, rest) && sent == old(sent) && (more || queue == [] || blocked)
        decreases more, |queue|
      {
        more := FlushOne(all, rest);
      }
    }

    /** One round of the loop in handle_client_disconnect */
    method DrainOne(ghost all: set<Msg>, ghost rest: map<Msg, multiset<Client>>) returns (more: bool)
      requires Ringed() && Holds(all) && Apart(all, rest)
      modifies this`cur, this`ofs, this`queue, ring, all`refcount, all`freed, all`holders
      ensures Ringed() && Holds(all) && Apart(all, rest) && more == (old(queue) != [])
      ensures queue == if more then old(queue)[1..] else []
    {
      Head();
      more := ring[cur] != null;
      if more {
        assert queue[0] in queue;
        Dequeue(all, rest);
      }
    }

    /** The loop in handle_client_disconnect: every slot lets go of its message. */
    method Drain(ghost all: set<Msg>, ghost rest: map<Msg, multiset<Client>>)
      requires Ringed() && Holds(all) && Apart(all, rest)
      modifies this`cur, this`ofs, this`queue, ring, all`refcount, all`freed, all`holders
      ensures Ringed() && Holds(all) && Apart(all, rest) && queue == []
    {
      var more := true;
      while more
        invariant Ringed() && Holds(all) && Apart(all, rest) && (more || queue == [])
        decreases more, |queue|
      {
        more := DrainOne(all, rest);
      }
    }
  }
}
