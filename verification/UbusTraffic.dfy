/** Everything that ubusd sends to its clients over a whole run: what each of them gets, and that every message is
    freed (ubusd.c). */
module UbusTraffic {
  import opened Common
  import opened Bytes
  import opened UbusTx
  import opened UbusDaemon

  /** Clients come and go, messages are sent to some of them, and sockets take data again. Clients are numbered in the
      order they come. */
  datatype Op =
    | Connect
    | Send(bytes: seq<byte>, shared: bool, to: seq<nat>)
    | Transmit(i: nat)
    | Disconnect(i: nat)

  /** How many clients there have been, and all bytes that were sent to each of those that are connected. */
  datatype Net = Net(count: nat, sent: map<nat, seq<byte>>)

  ghost function Given(sent: map<nat, seq<byte>>, i: nat, bytes: seq<byte>): map<nat, seq<byte>> {
    if i in sent then sent[i := sent[i] + bytes] else sent
  }

  ghost function AllGiven(sent: map<nat, seq<byte>>, to: seq<nat>, bytes: seq<byte>): map<nat, seq<byte>> {
    if to == [] then sent else Given(AllGiven(sent, to[..|to| - 1], bytes), to[|to| - 1], bytes)
  }

  ghost function Done(net: Net, op: Op): Net {
    match op
    case Connect => Net(net.count + 1, net.sent[net.count := []])
    case Send(bytes, _, to) => if bytes == [] then net else net.(sent := AllGiven(net.sent, to, bytes))
    case Transmit(_) => net
    case Disconnect(i) => net.(sent := net.sent - {i})
  }

  ghost function AllDone(net: Net, ops: seq<Op>): Net {
    if ops == [] then net else Done(AllDone(net, ops[..|ops| - 1]), ops[|ops| - 1])
  }

  lemma DoneMore(net: Net, ops: seq<Op>, k: nat)
    requires k < |ops|
    ensures AllDone(net, ops[..k + 1]) == Done(AllDone(net, ops[..k]), ops[k])
  {
    assert ops[..k + 1][..k] == ops[..k];
  }

  lemma GivenMore(sent: map<nat, seq<byte>>, to: seq<nat>, k: nat, bytes: seq<byte>)
    requires k < |to|
    ensures AllGiven(sent, to[..k + 1], bytes) == Given(AllGiven(sent, to[..k], bytes), to[k], bytes)
  {
    assert to[..k + 1][..k] == to[..k];
  }

  /** The daemon is right. (To be looked at like trees.) */
  ghost predicate Steady(d: Daemon)
    reads d, d.clients, Rings(d.clients), d.msgs
  {
    forall z :: Look(Clients, z) ==> d.Valid()
  }

  lemma Within(d: Daemon)
    ensures Steady(d) <==> d.Valid()
  {
    assert Look(Clients, 0);
  }

  ghost function SentTo(ids: seq<Client>, live: set<Client>): map<nat, seq<byte>>
    reads live
  {
    map i: nat | i < |ids| && ids[i] in live :: ids[i].sent
  }

  method Welcome(d: Daemon) returns (c: Client)
    requires Steady(d)
    modifies d`clients
    ensures Steady(d) && fresh(c) && fresh(c.ring) && d.clients == old(d.clients) + {c} && c.sent == []
  {
    Within(d);
    c := d.Connect();
    Within(d);
  }

  method NewMsg(d: Daemon, bytes: seq<byte>, shared: bool) returns (m: Msg)
    requires Steady(d) && bytes != []
    modifies d`msgs
    ensures Steady(d) && fresh(m) && d.msgs == old(d.msgs) + {m} && m.bytes == bytes && m.handle
  {
    Within(d);
    m := d.NewMsg(bytes, shared);
    Within(d);
  }

  method Deliver(d: Daemon, c: Client, m: Msg) returns (ok: bool)
    requires Steady(d) && c in d.clients && m in d.msgs && m.handle
    modifies c, c.ring, m
    ensures Steady(d) && c.sent == (if ok then old(c.sent) + m.bytes else old(c.sent)) && m.handle
  {
    Within(d);
    ok := d.Send(c, m, false);
    Within(d);
  }

  method Release(d: Daemon, m: Msg)
    requires Steady(d) && m in d.msgs && m.handle
    modifies m`refcount, m`freed, m`handle
    ensures Steady(d) && !m.handle
  {
    Within(d);
    d.Release(m);
    Within(d);
  }

  method Flush(d: Daemon, c: Client)
    requires Steady(d) && c in d.clients
    modifies c, c.ring, d.msgs`refcount, d.msgs`freed, d.msgs`holders
    ensures Steady(d) && c.sent == old(c.sent)
  {
    Within(d);
    d.Flush(c);
    Within(d);
  }

  method Drop(d: Daemon, c: Client)
    requires Steady(d) && c in d.clients
    modifies d`clients, c, c.ring, d.msgs`refcount, d.msgs`freed, d.msgs`holders
    ensures Steady(d) && d.clients == old(d.clients) - {c}
  {
    Within(d);
    d.Disconnect(c);
    Within(d);
  }

  /** Every client that is connected has a number, and only one. */
  ghost predicate Numbered(ids: seq<Client>, live: set<Client>) {
    (Distinct(ids) && forall c <- live :: c in ids) == true
  }

  lemma NumberedMore(ids: seq<Client>, live: set<Client>, c: Client)
    requires Numbered(ids, live) && c !in ids && c !in live && c.sent == []
    ensures Numbered(ids + [c], live + {c}) && SentTo(ids + [c], live + {c}) == SentTo(ids, live)[|ids| := []]
  {
    var more := ids + [c];
    assert forall i :: 0 <= i < |ids| ==> more[i] == ids[i] && more[i] != c;
    assert more[|ids|] == c;
    forall x | x in live + {c}
      ensures x in more
    {
      assert x in live ==> x in ids;
    }
  }

  lemma NumberedLess(ids: seq<Client>, live: set<Client>, i: nat)
    requires Numbered(ids, live) && i < |ids|
    ensures Numbered(ids, live - {ids[i]}) && SentTo(ids, live - {ids[i]}) == SentTo(ids, live) - {i}
  {
    assert forall j :: 0 <= j < |ids| && j != i ==> ids[j] != ids[i];
  }

  lemma NumberOnce(ids: seq<Client>, live: set<Client>, i: nat)
    requires Numbered(ids, live) && i < |ids|
    ensures forall j :: 0 <= j < |ids| && j != i ==> ids[j] != ids[i]
  {
  }

  lemma GivenIs(was: map<nat, seq<byte>>, now: map<nat, seq<byte>>, i: nat, bytes: seq<byte>)
    requires i in was && now.Keys == was.Keys && forall j <- now :: now[j] == if j == i then was[j] + bytes else was[j]
    ensures now == Given(was, i, bytes)
  {
  }

  class Traffic {
    const d: Daemon
    /** The clients by their numbers. */
    var ids: seq<Client>

    constructor ()
      ensures Valid() && View() == Net(0, map[]) && fresh(Repr())
    {
      d := new Daemon();
      ids := [];
      new;
      Within(d);
    }

    ghost function Repr(): set<object>
      reads this, d, d.clients
    {
      {this, d} + d.clients + Rings(d.clients) + d.msgs
    }

    /** Between two operations, no message is kept by its sender. */
    ghost predicate Valid()
      reads this, d, d.clients, Rings(d.clients), d.msgs
    {
      (Steady(d) && Numbered(ids, d.clients) && (forall m <- d.msgs :: !m.handle)) == true
    }

    ghost function View(): Net
      reads this, d, d.clients
    {
      Net(|ids|, SentTo(ids, d.clients))
    }

    method Come()
      requires Valid()
      modifies this, d`clients
      ensures Valid() && View() == Done(old(View()), Connect) && fresh(Repr() - old(Repr()))
    {
      ghost var live := d.clients;
      var c := Welcome(d);
      NumberedMore(ids, live, c);
      Enroll(c);
    }

    method Enroll(c: Client)
      requires Steady(d) && Numbered(ids + [c], d.clients) && forall m <- d.msgs :: !m.handle
      modifies this
      ensures Valid() && ids == old(ids) + [c]
    {
      ids := ids + [c];
    }

    /** One receiver of a message; if its queue is full, the process aborts. */
    method Give(i: nat, m: Msg) returns (ok: bool)
      requires Steady(d) && Numbered(ids, d.clients) && m in d.msgs && m.handle
      modifies d.clients, Rings(d.clients), m
      ensures Steady(d) && m.handle
      ensures ok ==> SentTo(ids, d.clients) == Given(old(SentTo(ids, d.clients)), i, m.bytes)
    {
      if |ids| <= i || ids[i] !in d.clients {
        return true;
      }
      ghost var was := SentTo(ids, d.clients);
      NumberOnce(ids, d.clients, i);
      ok := Deliver(d, ids[i], m);
      if ok {
        ghost var now := SentTo(ids, d.clients);
        assert forall j <- now :: now[j] == if j == i then was[j] + m.bytes else was[j];
        GivenIs(was, now, i, m.bytes);
      }
    }

    method GiveAll(to: seq<nat>, m: Msg) returns (ok: bool)
      requires Steady(d) && Numbered(ids, d.clients) && m in d.msgs && m.handle
      modifies d.clients, Rings(d.clients), m
      ensures Steady(d) && m.handle
      ensures ok ==> SentTo(ids, d.clients) == AllGiven(old(SentTo(ids, d.clients)), to, m.bytes)
    {
      ghost var sent := SentTo(ids, d.clients);
      for k := 0 to |to|
        invariant Steady(d) && m.handle && SentTo(ids, d.clients) == AllGiven(sent, to[..k], m.bytes)
      {
        ok := Give(to[k], m);
        if !ok {
          return false;
        }
        GivenMore(sent, to, k, m.bytes);
      }
      assert to[..|to|] == to;
      return true;
    }

    /** A message to some clients, after which the sender lets go of it. */
    method Send(bytes: seq<byte>, shared: bool, to: seq<nat>) returns (ok: bool)
      requires Valid() && bytes != []
      modifies d`msgs, d.clients, Rings(d.clients)
      ensures fresh(Repr() - old(Repr()))
      ensures ok ==> Valid() && View() == Done(old(View()), Op.Send(bytes, shared, to))
    {
      var m := NewMsg(d, bytes, shared);
      ok := GiveAll(to, m);
      if ok {
        Release(d, m);
      }
    }

    /** The socket of a client takes data again. */
    method Transmit(i: nat)
      requires Valid()
      modifies d.clients, Rings(d.clients), d.msgs`refcount, d.msgs`freed, d.msgs`holders
      ensures Valid() && View() == old(View())
    {
      if i < |ids| && ids[i] in d.clients {
        Flush(d, ids[i]);
      }
    }

    /** A client goes. */
    method Leave(i: nat)
      requires Valid()
      modifies d`clients, d.clients, Rings(d.clients), d.msgs`refcount, d.msgs`freed, d.msgs`holders
      ensures Valid() && Repr() <= old(Repr()) && View() == Done(old(View()), Disconnect(i))
    {
      if i < |ids| && ids[i] in d.clients {
        NumberedLess(ids, d.clients, i);
        Dismiss(ids[i], SentTo(ids, d.clients - {ids[i]}));
      }
    }

    method Dismiss(c: Client, ghost sent: map<nat, seq<byte>>)
      requires Valid() && c in d.clients && Numbered(ids, d.clients - {c}) && sent == SentTo(ids, d.clients - {c})
      modifies d`clients, d.clients, Rings(d.clients), d.msgs`refcount, d.msgs`freed, d.msgs`holders
      ensures Valid() && d.clients == old(d.clients) - {c} && SentTo(ids, d.clients) == sent
    {
      ghost var rest := d.clients - {c};
      Drop(d, c);
      ghost var now := SentTo(ids, rest);
      assert now.Keys == sent.Keys && forall j <- now :: now[j] == sent[j];
    }

    /** A message that still exists waits for a client, and what a client has got is the first part of what was sent to
        it. */
    lemma Everything()
      requires Valid()
      ensures forall m <- d.msgs :: m.freed <==> forall c <- d.clients :: m !in c.queue
      ensures forall c <- d.clients :: c.wire <= c.sent && (c.queue == [] ==> c.wire == c.sent)
    {
      Within(d);
      forall m | m in d.msgs
        ensures m.freed <==> forall c <- d.clients :: m !in c.queue
      {
        Released(d.clients, d.msgs, m);
      }
      forall c | c in d.clients
        ensures c.wire <= c.sent && (c.queue == [] ==> c.wire == c.sent)
      {
        c.WireIsPrefix();
      }
    }

    /** One operation; false if the process aborts. */
    method Step(op: Op) returns (ok: bool)
      requires Valid()
      modifies Repr()
      ensures fresh(Repr() - old(Repr())) && (ok ==> Valid() && View() == Done(old(View()), op))
    {
      ok := true;
      match op
      case Connect => Come();
      case Send(bytes, shared, to) =>
        if bytes != [] {
          ok := Send(bytes, shared, to);
        }
      case Transmit(i) => Transmit(i);
      case Disconnect(i) => Leave(i);
    }

    /** Over a whole run, unless a queue overflows: every client gets the messages that were sent to it in order,
        and every message is freed once no client waits for it. */
    method Run(ops: seq<Op>) returns (ok: bool)
      requires Valid()
      modifies Repr()
      ensures ok ==> Valid() && View() == AllDone(old(View()), ops)
      ensures ok ==> forall m <- d.msgs :: m.freed <==> forall c <- d.clients :: m !in c.queue
      ensures ok ==> forall c <- d.clients :: c.wire <= c.sent && (c.queue == [] ==> c.wire == c.sent)
    {
      ghost var net, parts := View(), Repr();
      for k := 0 to |ops|
        invariant Valid() && fresh(Repr() - parts) && View() == AllDone(net, ops[..k])
      {
        ok := Step(ops[k]);
        if !ok {
          return false;
        }
        DoneMore(net, ops, k);
      }
      assert ops[..|ops|] == ops;
      Everything();
      return true;
    }
  }
}
