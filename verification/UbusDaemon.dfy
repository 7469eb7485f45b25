/** All clients of ubusd and the messages they share (ubusd.c): who keeps a message alive. */
module UbusDaemon {
  import opened Bytes
  import opened UbusTx

  ghost function Rings(cs: set<Client>): set<array<Msg?>> { set c | c in cs :: c.ring }

  /** Every client keeps its ring and its bytes in step, every message is counted right over all clients, and only
      clients that are connected hold references. */
  ghost predicate Fine(cs: set<Client>, ms: set<Msg>)
    reads cs, Rings(cs), ms
  {
    (&& (forall c <- cs :: c.Valid() && c.Holds(ms))
     && (forall c <- cs, d <- cs :: c != d ==> c.ring != d.ring)
     && (forall m <- ms :: m.Sane() && forall x <- m.holders :: x in cs)) == true
  }

  /** A client that nobody knows comes. */
  lemma FineClient(cs: set<Client>, ms: set<Msg>, c: Client)
    requires Fine(cs, ms) && c !in cs && c.ring !in Rings(cs) && c.Valid() && c.queue == []
    ensures Fine(cs + {c}, ms)
  {
    forall m | m in ms
      ensures m.holders[c] == 0
    {
      assert c !in m.holders;
    }
  }

  /** A client whose queue is empty goes. */
  lemma FineLess(cs: set<Client>, ms: set<Msg>, c: Client)
    requires (forall d <- cs :: d != c ==> d.Valid() && d.Holds(ms)) && c.Holds(ms) && c.queue == []
    requires forall d <- cs, e <- cs :: d != e ==> d.ring != e.ring
    requires forall m <- ms :: m.Sane() && forall x <- m.holders :: x in cs
    ensures Fine(cs - {c}, ms)
  {
    forall m | m in ms
      ensures c !in m.holders
    {
      assert m.holders[c] == 0;
    }
  }

  lemma FineAgain(cs: set<Client>, ms: set<Msg>, c: Client)
    requires c.Valid() && c.Holds(ms) && (forall d <- cs :: d != c ==> d.Valid() && d.Holds(ms))
    requires forall d <- cs, e <- cs :: d != e ==> d.ring != e.ring
    requires forall m <- ms :: m.Sane() && forall x <- m.holders :: x in cs
    ensures Fine(cs, ms)
  {
  }

  /** A message that nobody knows comes. */
  lemma FineMsg(cs: set<Client>, ms: set<Msg>, m: Msg)
    requires Fine(cs, ms) && m !in ms && m.Sane() && m.holders == multiset{}
    ensures Fine(cs, ms + {m})
  {
    forall c | c in cs
      ensures c.Holds(ms + {m})
    {
      assert m !in c.queue;
    }
  }

  /** A message is freed exactly when the sender and every queue slot of every client have let go of it. */
  lemma Released(cs: set<Client>, ms: set<Msg>, m: Msg)
    requires Fine(cs, ms) && m in ms
    ensures m.freed <==> !m.handle && forall c <- cs :: m !in c.queue
  {
    if m.holders == multiset{} {
      forall c | c in cs
        ensures m !in c.queue
      {
        assert m.holders[c] == Times(c.queue, m);
      }
    } else {
      var x :| x in m.holders;
      assert m.holders[x] == Times(x.queue, m);
    }
  }

  /** A reference of another client is not touched. */
  lemma Kept(h: multiset<Client>, h': multiset<Client>, c: Client, d: Client)
    requires h[c := 0] == h'[c := 0] && c != d
    ensures h[d] == h'[d]
  {
    assert h[c := 0][d] == h[d] && h'[c := 0][d] == h'[d];
  }

  class Daemon {
    var clients: set<Client>
    /** All messages there have been. */
    ghost var msgs: set<Msg>

    constructor ()
      ensures Valid() && clients == {} && msgs == {}
    {
      clients, msgs := {}, {};
    }

    ghost predicate Valid()
      reads this, clients, Rings(clients), msgs
    {
      Fine(clients, msgs)
    }

    /** If only the state of one client and its references have changed, everything else is still right. */
    twostate lemma OthersFine(c: Client)
      requires old(Valid()) && c in clients && clients == old(clients) && msgs == old(msgs)
      requires (forall m <- msgs :: m.Sane() && m.holders[c := 0] == old(m.holders[c := 0]))
      requires forall d <- clients :: d != c ==> unchanged(d) && unchanged(d.ring)
      ensures forall d <- clients :: d != c ==> d.Valid() && d.Holds(msgs)
      ensures forall m <- msgs, x <- m.holders :: x in clients
    {
      forall d, m | d in clients && d != c && m in msgs
        ensures m.holders[d] == Times(d.queue, m)
      {
        Kept(old(m.holders), m.holders, c, d);
      }
      forall m, x | m in msgs && x in m.holders
        ensures x in clients
      {
        if x != c {
          Kept(old(m.holders), m.holders, c, x);
        }
      }
    }

    twostate lemma OneChanged(c: Client)
      requires old(Valid()) && c in clients && clients == old(clients) && msgs == old(msgs)
      requires c.Valid() && c.Holds(msgs) && forall m <- msgs :: m.holders[c := 0] == old(m.holders[c := 0])
      requires forall d <- clients :: d != c ==> unchanged(d) && unchanged(d.ring)
      ensures Valid()
    {
      OthersFine(c);
      FineAgain(clients, msgs, c);
    }

    /** If the references are as they were and the counts right, everything is still right. */
    twostate lemma StillFine()
      requires old(Valid()) && clients == old(clients) && msgs == old(msgs)
      requires forall m <- msgs :: m.Sane() && m.holders == old(m.holders)
      requires forall d <- clients :: unchanged(d) && unchanged(d.ring)
      ensures Valid()
    {
    }

    /** A client connects. */
    method Connect() returns (c: Client)
      requires Valid()
      modifies this`clients
      ensures Valid() && fresh(c) && fresh(c.ring) && clients == old(clients) + {c} && c.queue == [] && c.sent == []
    {
      c := new Client();
      FineClient(clients, msgs, c);
      clients := clients + {c};
    }

    /** ubus_msg_new */
    method NewMsg(bytes: seq<byte>, shared: bool) returns (m: Msg)
      requires Valid() && bytes != []
      modifies this`msgs
      ensures Valid() && fresh(m) && msgs == old(msgs) + {m} && m.bytes == bytes && m.handle
    {
      m := new Msg(bytes, shared);
      FineMsg(clients, msgs, m);
      msgs := msgs + {m};
    }

    /** ubus_msg_free by the sender */
    method Release(m: Msg)
      requires Valid() && m in msgs && m.handle
      modifies m`refcount, m`freed, m`handle
      ensures Valid() && !m.handle && (m.freed <==> forall c <- clients :: m !in c.queue)
    {
      m.Release();
      StillFine();
      Released(clients, msgs, m);
    }

    /** ubus_msg_send to any client, whoever else has the message queued; if its queue is full, the process aborts. */
    method Send(c: Client, m: Msg, release: bool) returns (ok: bool)
      requires Valid() && c in clients && m in msgs && m.handle
      modifies c, c.ring, m
      ensures Valid() && ok == (old(|c.queue|) < SLOTS) && c.sent == if ok then old(c.sent) + m.bytes else old(c.sent)
      ensures m.handle == !(ok && release)
    {
      ok := c.Pass(m, msgs);
      OneChanged(c);
      if ok && release {
        Release(m);
      }
    }

    /** The transmit half of client_cb for any client. */
    method Flush(c: Client)
      requires Valid() && c in clients
      modifies c, c.ring, msgs`refcount, msgs`freed, msgs`holders
      ensures Valid() && c.sent == old(c.sent) && (c.queue == [] || c.blocked)
    {
      ghost var rest := map m | m in msgs :: m.holders[c := 0];
      c.Flush(msgs, rest);
      OneChanged(c);
    }

    /** handle_client_disconnect: its queue lets go of everything. */
    method Disconnect(c: Client)
      requires Valid() && c in clients
      modifies this`clients, c, c.ring, msgs`refcount, msgs`freed, msgs`holders
      ensures Valid() && clients == old(clients) - {c}
    {
      c.Drain(msgs, map m | m in msgs :: m.holders[c := 0]);
      OthersFine(c);
      FineLess(clients, msgs, c);
      Forget(c);
    }

    method Forget(c: Client)
      requires Fine(clients - {c}, msgs)
      modifies this`clients
      ensures Valid() && clients == old(clients) - {c}
    {
      clients := clients - {c};
    }
  }
}
