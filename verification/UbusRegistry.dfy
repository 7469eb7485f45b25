/** Objects of ubusd together with the tree of their paths (ubusd_obj.c). */
module UbusRegistry {
  import opened Common
  import opened UbusBroker
  import opened UbusDirectory

  /** The paths of some objects. */
  ghost function Of(names: map<nat, string>, keys: set<nat>): map<nat, string> {
    map o | o in names && o in keys :: names[o]
  }

  lemma OfAll(names: map<nat, string>, keys: set<nat>)
    requires names.Keys <= keys
    ensures Of(names, keys) == names
  {
  }

  lemma OfLess(names: map<nat, string>, keys: set<nat>, o: nat)
    ensures Of(names, keys) - {o} == Of(names, keys - {o})
  {
  }

  /** The objects are right. (To be looked at like Right.) */
  ghost predicate Coherent(objs: Objs, subs: Subs, types: map<nat, int>) {
    forall z {:trigger Look(Objects, z)} :: Look(Objects, z) ==> Consistent(objs, subs, types)
  }

  lemma CoherentIs(objs: Objs, subs: Subs, types: map<nat, int>)
    ensures Coherent(objs, subs, types) <==> Consistent(objs, subs, types)
  {
    assert Look(Objects, 0);
  }

  ghost predicate Sound(b: Broker)
    reads b
  {
    Coherent(b.objs, b.subs, b.types)
  }

  /** The answer to ubusd_handle_add_watch. */
  function Verdict(objs: Objs, cl: nat, o: nat, t: nat): Status {
    if o !in objs then NotFound else if objs[o].client != cl then InvalidArgument
    else if t !in objs then NotFound else if objs[t].client == cl then InvalidArgument else Ok
  }

  /** The answer to ubusd_handle_remove_watch, and the subscription that goes. */
  ghost predicate Dismissed(objs: Objs, subs: Subs, cl: nat, o: nat, t: nat, status: Status, s: nat) {
    && (status == Ok ==> s in subs && subs[s] == Sub(o, t))
    && if o !in objs then status == NotFound else if objs[o].client != cl then status == InvalidArgument
       else status == if exists q :: q in subs && subs[q] == Sub(o, t) then Ok else NotFound
  }

  method Start() returns (b: Broker)
    ensures Sound(b) && fresh(b) && b.objs == map[] && b.subs == map[]
  {
    b := new Broker();
    CoherentIs(b.objs, b.subs, b.types);
  }

  method Create(b: Broker, cl: nat, o: nat, named: Maybe<nat>, signature: Maybe<bool>, newKind: nat)
    requires Sound(b) && o !in b.objs && newKind !in b.types
    modifies b
    ensures Sound(b) && b.subs == old(b.subs)
    ensures b.objs == old(b.objs)[o := Obj(cl, KindOf(named, signature, newKind, old(b.types)), [], [], [])]
    ensures b.types == Shared(old(b.types), b.objs[o].kind)
  {
    CoherentIs(b.objs, b.subs, b.types);
    b.Create(cl, o, named, signature, newKind);
    CoherentIs(b.objs, b.subs, b.types);
  }

  method Undo(b: Broker, o: nat, ghost was: Objs, ghost before: Subs, ghost counts: map<nat, int>)
    requires Sound(b) && o in b.objs && o !in was && b.objs == was[o := b.objs[o]] && b.subs == before
    requires Coherent(was, before, counts)
    modifies b
    ensures Sound(b) && b.objs == was && b.subs == before && b.types == counts
  {
    CoherentIs(b.objs, b.subs, b.types);
    CoherentIs(was, before, counts);
    b.Undo(o, was, before, counts);
  }

  method Discard(b: Broker, o: nat)
    requires Sound(b) && o in b.objs
    modifies b
    ensures Sound(b) && b.objs.Keys == old(b.objs).Keys - {o}
    ensures Survive(b.objs, old(b.objs), b.subs) && Rest(b.subs, old(b.subs), o)
  {
    CoherentIs(b.objs, b.subs, b.types);
    b.FreeObject(o);
    CoherentIs(b.objs, b.subs, b.types);
  }

  lemma RelistedOwner(now: Objs, was: Objs, o: nat, targets: seq<nat>, t: nat, subscribers: seq<nat>)
    requires o in was && t in was && o != t && now == Relisted(was, o, targets, t, subscribers)
    ensures SameOwner(now, was)
  {
  }

  method AddWatch(b: Broker, cl: nat, o: nat, t: nat, s: nat) returns (status: Status)
    requires Sound(b) && s !in b.subs
    modifies b
    ensures Sound(b) && SameOwner(b.objs, old(b.objs)) && status == Verdict(old(b.objs), cl, o, t)
    ensures b.subs == if status == Ok then old(b.subs)[s := Sub(o, t)] else old(b.subs)
  {
    ghost var was := b.objs;
    CoherentIs(b.objs, b.subs, b.types);
    status := b.AddWatch(cl, o, t, s);
    if status == Ok {
      RelistedOwner(b.objs, was, o, [s] + was[o].targets, t, [s] + was[t].subscribers);
    }
    CoherentIs(b.objs, b.subs, b.types);
  }

  method RemoveWatch(b: Broker, cl: nat, o: nat, t: nat) returns (status: Status, s: nat)
    requires Sound(b)
    modifies b
    ensures Sound(b) && SameOwner(b.objs, old(b.objs)) && Dismissed(old(b.objs), old(b.subs), cl, o, t, status, s)
    ensures b.subs == if status == Ok then old(b.subs) - {s} else old(b.subs)
  {
    ghost var was := b.objs;
    CoherentIs(b.objs, b.subs, b.types);
    status, s := b.RemoveWatch(cl, o, t);
    if status == Ok {
      RelistedOwner(b.objs, was, o, Without(was[o].targets, s), t, Without(was[t].subscribers, s));
    }
    CoherentIs(b.objs, b.subs, b.types);
  }

  class Registry {
    const broker: Broker
    const paths: Directory

    constructor ()
      ensures Valid() && broker.objs == map[] && broker.subs == map[] && paths.names == map[] && fresh(Repr())
    {
      var b := Start();
      broker := b;
      paths := new Directory();
    }

    /** The objects that this consists of. */
    ghost function Repr(): set<object>
      reads this, paths, paths.tree
    {
      {this, broker} + paths.Repr()
    }

    /** Only objects that exist have paths. */
    ghost predicate Valid()
      reads this, broker, paths, paths.tree, paths.Repr()
    {
      (Sound(broker) && paths.Valid() && broker !in paths.Repr() && paths.names.Keys <= broker.objs.Keys) == true
    }

    /** The path of an object that has just been created; if it is taken, the object goes again. */
    method Name(o: nat, path: string, ghost was: Objs, ghost before: Subs, ghost counts: map<nat, int>)
      returns (ok: bool)
      requires Valid() && o in broker.objs && o !in was && broker.objs == was[o := broker.objs[o]]
      requires broker.subs == before && Coherent(was, before, counts) == true && paths.names.Keys <= was.Keys
      modifies broker, paths.Repr()
      ensures Valid() && fresh(Repr() - old(Repr())) && broker.subs == before
      ensures ok == (path !in old(paths.names).Values)
      ensures ok ==> broker.objs == old(broker.objs) && paths.names == old(paths.names)[o := path]
      ensures ok ==> broker.types == old(broker.types)
      ensures !ok ==> broker.objs == was && broker.types == counts && paths.names == old(paths.names)
    {
      ok := paths.Enter(o, path);
      if !ok {
        ghost var parts := paths.Repr();
        Undo(broker, o, was, before, counts);
        assert paths.Repr() == parts && paths.Valid() == true;
      }
    }

    /** ubusd_create_object: it fails exactly if another object has the path, and then nothing remains of the
        attempt. */
    method AddObject(cl: nat, o: nat, named: Maybe<nat>, signature: Maybe<bool>, newKind: nat, path: Maybe<string>)
      returns (ok: bool)
      requires Valid() && o !in broker.objs && newKind !in broker.types
      modifies Repr()
      ensures Valid() && fresh(Repr() - old(Repr())) && broker.subs == old(broker.subs)
      ensures ok <==> path.None? || path.value !in old(paths.names).Values
      ensures ok ==> var kind := KindOf(named, signature, newKind, old(broker.types));
                     && broker.objs == old(broker.objs)[o := Obj(cl, kind, [], [], [])]
                     && broker.types == Shared(old(broker.types), kind)
      ensures ok && path.Some? ==> paths.names == old(paths.names)[o := path.value]
      ensures !ok ==> broker.objs == old(broker.objs) && broker.types == old(broker.types)
      ensures !ok || path.None? ==> paths.names == old(paths.names)
    {
      ghost var was, before, counts := broker.objs, broker.subs, broker.types;
      Create(broker, cl, o, named, signature, newKind);
      assert paths.Repr() == old(paths.Repr()) && paths.Valid() == true;
      ok := true;
      if path.Some? {
        ok := Name(o, path.value, was, before, counts);
      }
    }

    /** ubusd_free_object: the object goes with its path and exactly the subscriptions it has part in. */
    method FreeObject(o: nat)
      requires Valid() && o in broker.objs
      modifies Repr()
      ensures Valid() && broker.objs.Keys == old(broker.objs).Keys - {o}
      ensures Survive(broker.objs, old(broker.objs), broker.subs) && Rest(broker.subs, old(broker.subs), o)
      ensures paths.names == old(paths.names) - {o} && Repr() <= old(Repr())
    {
      Discard(broker, o);
      paths.Leave(o);
    }

    /** ubusd_proto_free_client: all objects of the client go, with their paths and the subscriptions they have part in;
        of the others the rest remains. */
    method FreeClient(cl: nat)
      requires Valid()
      modifies Repr()
      ensures Valid() && broker.objs.Keys == set o | o in old(broker.objs) && old(broker.objs)[o].client != cl
      ensures Gone(broker.objs, broker.subs, old(broker.objs), old(broker.subs))
      ensures paths.names == Of(old(paths.names), broker.objs.Keys) && Repr() <= old(Repr())
    {
      var mine := set o | o in broker.objs && broker.objs[o].client == cl;
      CoherentIs(broker.objs, broker.subs, broker.types);
      GoneNone(broker.objs, broker.subs);
      OfAll(paths.names, broker.objs.Keys);
      FreeAll(mine, broker.objs, broker.subs, paths.names);
    }

    /** The loop over the objects of a client. */
    method FreeAll(all: set<nat>, ghost was: Objs, ghost before: Subs, ghost names: map<nat, string>)
      requires Valid() && all <= broker.objs.Keys && Gone(broker.objs, broker.subs, was, before)
      requires paths.names == Of(names, broker.objs.Keys)
      modifies Repr()
      ensures Valid() && broker.objs.Keys == old(broker.objs).Keys - all && Gone(broker.objs, broker.subs, was, before)
      ensures paths.names == Of(names, broker.objs.Keys) && Repr() <= old(Repr())
    {
      var left := all;
      ghost var keys, parts := broker.objs.Keys, Repr();
      while left != {}
        invariant Valid() && Gone(broker.objs, broker.subs, was, before) && Repr() <= parts
        invariant left <= all && broker.objs.Keys == keys - (all - left) && paths.names == Of(names, broker.objs.Keys)
        decreases left
      {
        var o :| o in left;
        FreeOne(o, was, before, names);
        KeysLess(keys, all, left, o);
        left := left - {o};
      }
      assert all - {} == all;
    }

    /** One of several objects that go. */
    method FreeOne(o: nat, ghost was: Objs, ghost before: Subs, ghost names: map<nat, string>)
      requires Valid() && o in broker.objs && Gone(broker.objs, broker.subs, was, before)
      requires paths.names == Of(names, broker.objs.Keys)
      modifies Repr()
      ensures Valid() && broker.objs.Keys == old(broker.objs).Keys - {o} && Gone(broker.objs, broker.subs, was, before)
      ensures paths.names == Of(names, broker.objs.Keys) && Repr() <= old(Repr())
    {
      ghost var mid, some := broker.objs, broker.subs;
      FreeObject(o);
      GoneMore(broker.objs, broker.subs, mid, some, was, before, o);
      OfLess(names, mid.Keys, o);
    }
  }
}
