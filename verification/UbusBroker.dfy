/** Objects, their types and their subscriptions in ubusd (ubusd_obj.c, ubusd_proto.c). */
module UbusBroker {
  import opened Common

  /** struct ubus_object. The two lists hold subscriptions; told is what the owner was told about having subscribers. */
  datatype Obj = Obj(client: nat, kind: Maybe<nat>, subscribers: seq<nat>, targets: seq<nat>, told: seq<bool>)

  /** struct ubus_subscription */
  datatype Sub = Sub(subscriber: nat, target: nat)

  type Objs = map<nat, Obj>
  type Subs = map<nat, Sub>

  /** Flags that alternate, beginning with true. */
  predicate Alternates(told: seq<bool>) { forall i :: 0 <= i < |told| ==> (told[i] <==> i % 2 == 0) }

  predicate Latest(told: seq<bool>) { told != [] && told[|told| - 1] }

  lemma AlternatesMore(told: seq<bool>)
    requires Alternates(told)
    ensures Alternates(told + [!Latest(told)]) && Latest(told + [!Latest(told)]) == !Latest(told)
  {
  }

  // ---- the invariant ----

  /** A subscription is in its target's list and in its subscriber's list, and the two belong to different clients. */
  ghost predicate Joins(objs: Objs, s: nat, u: Sub) {
    && u.subscriber in objs && u.target in objs && objs[u.subscriber].client != objs[u.target].client
    && s in objs[u.subscriber].targets && s in objs[u.target].subscribers
  }

  /** The lists of an object hold its subscriptions, each once. */
  ghost predicate Lists(subs: Subs, o: nat, x: Obj) {
    && Distinct(x.subscribers) && Distinct(x.targets)
    && (forall s <- x.subscribers :: s in subs && subs[s].target == o)
    && (forall s <- x.targets :: s in subs && subs[s].subscriber == o)
  }

  ghost predicate Linked(objs: Objs, subs: Subs) {
    (forall s <- subs :: Joins(objs, s, subs[s])) && (forall o <- objs :: Lists(subs, o, objs[o]))
  }

  /** The objects of a type. */
  function OfKind(objs: Objs, kind: nat): set<nat> { set o | o in objs && objs[o].kind == Some(kind) }

  /** A type is there as long as objects have it, and counts them. */
  ghost predicate Counted(objs: Objs, types: map<nat, int>) {
    && (forall o <- objs :: objs[o].kind.Some? ==> objs[o].kind.value in types)
    && (forall k <- types :: types[k] == |OfKind(objs, k)| > 0)
  }

  /** The owner knows whether there are subscribers. */
  ghost predicate Knows(x: Obj) { Alternates(x.told) && (Latest(x.told) <==> x.subscribers != []) }

  ghost predicate Told(objs: Objs) { forall o <- objs :: Knows(objs[o]) }

  /** All of this together. (As one equation the verifier passes it on whole, not clause by clause.) */
  ghost predicate Consistent(objs: Objs, subs: Subs, types: map<nat, int>) {
    (Linked(objs, subs) && Counted(objs, types) && Told(objs)) == true
  }

  // ---- subscribing ----

  /** ubus_notify_subscription, if the list has become empty or has ceased to be. */
  function Notified(x: Obj, now: seq<nat>): Obj {
    x.(subscribers := now, told := x.told + if (x.subscribers == []) != (now == []) then [now != []] else [])
  }

  lemma NotifiedKnows(x: Obj, now: seq<nat>)
    requires Knows(x)
    ensures Knows(Notified(x, now))
  {
    if (x.subscribers == []) != (now == []) {
      AlternatesMore(x.told);
    } else {
      assert x.told + [] == x.told;
    }
  }

  /** The objects with new lists for a subscriber and a target. */
  function Relisted(objs: Objs, o: nat, targets: seq<nat>, t: nat, subscribers: seq<nat>): Objs
    requires o in objs && t in objs && o != t
  {
    objs[o := objs[o].(targets := targets)][t := Notified(objs[t], subscribers)]
  }

  lemma RelistedTold(objs: Objs, o: nat, targets: seq<nat>, t: nat, subscribers: seq<nat>)
    requires o in objs && t in objs && o != t && Told(objs)
    ensures Told(Relisted(objs, o, targets, t, subscribers))
  {
    NotifiedKnows(objs[t], subscribers);
  }

  lemma RelistedCounted(objs: Objs, o: nat, targets: seq<nat>, t: nat, subscribers: seq<nat>, types: map<nat, int>)
    requires o in objs && t in objs && o != t && Counted(objs, types)
    ensures Counted(Relisted(objs, o, targets, t, subscribers), types)
  {
    var now := Relisted(objs, o, targets, t, subscribers);
    forall k | k in types
      ensures OfKind(now, k) == OfKind(objs, k)
    {
    }
  }

  lemma JoinsStill(objs: Objs, o: nat, targets: seq<nat>, t: nat, subscribers: seq<nat>, q: nat, u: Sub)
    requires o in objs && t in objs && o != t && Joins(objs, q, u)
    requires (u.subscriber == o ==> q in targets) && (u.target == t ==> q in subscribers)
    ensures Joins(Relisted(objs, o, targets, t, subscribers), q, u)
  {
  }

  /** New lists that are right make the whole right. */
  lemma RelistedLinked(objs: Objs, subs: Subs, o: nat, targets: seq<nat>, t: nat, subscribers: seq<nat>, subs': Subs)
    requires Linked(objs, subs) && o in objs && t in objs && o != t
    requires Lists(subs', o, objs[o].(targets := targets)) && Lists(subs', t, objs[t].(subscribers := subscribers))
    requires forall x <- objs :: x != o && x != t ==> Lists(subs', x, objs[x])
    requires forall q <- subs' :: Joins(Relisted(objs, o, targets, t, subscribers), q, subs'[q])
    ensures Linked(Relisted(objs, o, targets, t, subscribers), subs')
  {
  }

  lemma ListsMore(subs: Subs, s: nat, u: Sub, x: nat, obj: Obj)
    requires Lists(subs, x, obj) && s !in subs
    ensures Lists(subs[s := u], x, obj)
    ensures u.subscriber == x ==> Lists(subs[s := u], x, obj.(targets := [s] + obj.targets))
    ensures u.target == x ==> Lists(subs[s := u], x, obj.(subscribers := [s] + obj.subscribers))
  {
  }

  lemma ListsLess(subs: Subs, s: nat, x: nat, obj: Obj)
    requires Lists(subs, x, obj) && s in subs
    ensures s !in obj.targets && s !in obj.subscribers ==> Lists(subs - {s}, x, obj)
    ensures s in obj.targets && s !in obj.subscribers ==> Lists(subs - {s}, x, obj.(targets := Without(obj.targets, s)))
    ensures s !in obj.targets && s in obj.subscribers
            ==> Lists(subs - {s}, x, obj.(subscribers := Without(obj.subscribers, s)))
  {
    if s in obj.targets {
      WithoutOne(obj.targets, s);
    }
    if s in obj.subscribers {
      WithoutOne(obj.subscribers, s);
    }
  }

  lemma SubscribedLinked(objs: Objs, subs: Subs, o: nat, t: nat, s: nat)
    requires Linked(objs, subs) && o in objs && t in objs && objs[o].client != objs[t].client && s !in subs
    ensures Linked(Relisted(objs, o, [s] + objs[o].targets, t, [s] + objs[t].subscribers), subs[s := Sub(o, t)])
  {
    var targets, subscribers, subs' := [s] + objs[o].targets, [s] + objs[t].subscribers, subs[s := Sub(o, t)];
    forall x | x in objs
      ensures Lists(subs', x, objs[x])
    {
      ListsMore(subs, s, Sub(o, t), x, objs[x]);
    }
    ListsMore(subs, s, Sub(o, t), o, objs[o]);
    ListsMore(subs, s, Sub(o, t), t, objs[t]);
    forall q | q in subs'
      ensures Joins(Relisted(objs, o, targets, t, subscribers), q, subs'[q])
    {
      if q != s {
        JoinsStill(objs, o, targets, t, subscribers, q, subs[q]);
      }
    }
    RelistedLinked(objs, subs, o, targets, t, subscribers, subs');
  }

  lemma UnsubscribedJoins(objs: Objs, subs: Subs, s: nat, q: nat)
    requires Linked(objs, subs) && s in subs && q in subs && q != s
    ensures var o, t := subs[s].subscriber, subs[s].target;
            && o in objs && t in objs && o != t
            && Joins(Relisted(objs, o, Without(objs[o].targets, s), t, Without(objs[t].subscribers, s)), q, subs[q])
  {
    assert Joins(objs, s, subs[s]) && Joins(objs, q, subs[q]);
    var o, t := subs[s].subscriber, subs[s].target;
    assert Lists(subs, o, objs[o]) && Lists(subs, t, objs[t]);
    WithoutOne(objs[o].targets, s);
    WithoutOne(objs[t].subscribers, s);
    JoinsStill(objs, o, Without(objs[o].targets, s), t, Without(objs[t].subscribers, s), q, subs[q]);
  }

  lemma UnsubscribedLinked(objs: Objs, subs: Subs, s: nat)
    requires Linked(objs, subs) && s in subs
    ensures var o, t := subs[s].subscriber, subs[s].target;
            && o in objs && t in objs && o != t && s in objs[o].targets && s in objs[t].subscribers
            && Linked(Relisted(objs, o, Without(objs[o].targets, s), t, Without(objs[t].subscribers, s)), subs - {s})
            && |Without(objs[o].targets, s)| == |objs[o].targets| - 1
            && |Without(objs[t].subscribers, s)| == |objs[t].subscribers| - 1
  {
    assert Joins(objs, s, subs[s]);
    var o, t, subs' := subs[s].subscriber, subs[s].target, subs - {s};
    assert Lists(subs, o, objs[o]) && Lists(subs, t, objs[t]);
    WithoutOne(objs[o].targets, s);
    WithoutOne(objs[t].subscribers, s);
    forall x | x in objs && x != o && x != t
      ensures Lists(subs', x, objs[x])
    {
      ListsLess(subs, s, x, objs[x]);
    }
    ListsLess(subs, s, o, objs[o]);
    ListsLess(subs, s, t, objs[t]);
    forall q | q in subs'
      ensures Joins(Relisted(objs, o, Without(objs[o].targets, s), t, Without(objs[t].subscribers, s)), q, subs'[q])
    {
      UnsubscribedJoins(objs, subs, s, q);
    }
    RelistedLinked(objs, subs, o, Without(objs[o].targets, s), t, Without(objs[t].subscribers, s), subs');
  }

  lemma SubscribedConsistent(objs: Objs, subs: Subs, types: map<nat, int>, o: nat, t: nat, s: nat)
    requires Consistent(objs, subs, types) && o in objs && t in objs && objs[o].client != objs[t].client && s !in subs
    ensures Consistent(Relisted(objs, o, [s] + objs[o].targets, t, [s] + objs[t].subscribers),
                       subs[s := Sub(o, t)], types)
  {
    SubscribedLinked(objs, subs, o, t, s);
    RelistedTold(objs, o, [s] + objs[o].targets, t, [s] + objs[t].subscribers);
    RelistedCounted(objs, o, [s] + objs[o].targets, t, [s] + objs[t].subscribers, types);
  }

  /** The subscription s stands in both lists. */
  predicate Ends(objs: Objs, u: Sub, s: nat) {
    && u.subscriber in objs && u.target in objs && u.subscriber != u.target
    && s in objs[u.subscriber].targets && s in objs[u.target].subscribers
    && Distinct(objs[u.subscriber].targets) && Distinct(objs[u.target].subscribers)
  }

  function Unsubscribed(objs: Objs, u: Sub, s: nat): Objs
    requires Ends(objs, u, s)
  {
    Relisted(objs, u.subscriber, Without(objs[u.subscriber].targets, s), u.target,
      Without(objs[u.target].subscribers, s))
  }

  /** Only two lists change, and they become shorter. */
  lemma UnsubscribedShorter(objs: Objs, u: Sub, s: nat)
    requires Ends(objs, u, s)
    ensures var now := Unsubscribed(objs, u, s);
            && SameOwner(now, objs)
            && |now[u.subscriber].targets| == |objs[u.subscriber].targets| - 1
            && |now[u.target].subscribers| == |objs[u.target].subscribers| - 1
            && forall x <- objs :: (x != u.subscriber ==> now[x].targets == objs[x].targets)
                                   && (x != u.target ==> now[x].subscribers == objs[x].subscribers)
  {
    WithoutOne(objs[u.subscriber].targets, s);
    WithoutOne(objs[u.target].subscribers, s);
  }

  /** Everything about an object but its lists and what its owner was told. */
  predicate SameOwner(a: Objs, b: Objs) {
    a.Keys == b.Keys && forall o <- a :: a[o].client == b[o].client && a[o].kind == b[o].kind
  }

  lemma UnsubscribedConsistent(objs: Objs, subs: Subs, types: map<nat, int>, s: nat)
    requires Consistent(objs, subs, types) && s in subs
    ensures Ends(objs, subs[s], s) && Consistent(Unsubscribed(objs, subs[s], s), subs - {s}, types)
  {
    UnsubscribedLinked(objs, subs, s);
    var o, t := subs[s].subscriber, subs[s].target;
    assert Lists(subs, o, objs[o]) && Lists(subs, t, objs[t]);
    RelistedTold(objs, o, Without(objs[o].targets, s), t, Without(objs[t].subscribers, s));
    RelistedCounted(objs, o, Without(objs[o].targets, s), t, Without(objs[t].subscribers, s), types);
  }

  /** Changes the list of the subscriber and that of the target, and tells the owner of the target what has changed. */
  method Relist(objs: Objs, o: nat, targets: seq<nat>, t: nat, subscribers: seq<nat>) returns (now: Objs)
    requires o in objs && t in objs && o != t
    ensures now == Relisted(objs, o, targets, t, subscribers)
  {
    now := objs[o := objs[o].(targets := targets)];
    var target := objs[t];
    if (target.subscribers == []) != (subscribers == []) {
      target := target.(told := target.told + [subscribers != []]);
    }
    assert objs[t].told + [] == objs[t].told;
    now := now[t := target.(subscribers := subscribers)];
  }

  // ---- objects and types ----

  /** Reference counts while a reference to the type k is held besides those of the objects. */
  ghost predicate Holding(objs: Objs, types: map<nat, int>, k: Maybe<nat>) {
    && (forall o <- objs :: objs[o].kind.Some? ==> objs[o].kind.value in types)
    && (k.Some? ==> k.value in types)
    && (forall q <- types :: types[q] == |OfKind(objs, q)| + (if k == Some(q) then 1 else 0) > 0)
  }

  lemma KindMore(objs: Objs, o: nat, x: Obj, q: nat)
    requires o !in objs
    ensures |OfKind(objs[o := x], q)| == |OfKind(objs, q)| + if x.kind == Some(q) then 1 else 0
  {
    var now := OfKind(objs[o := x], q);
    if x.kind == Some(q) {
      assert now == OfKind(objs, q) + {o};
    } else {
      assert now == OfKind(objs, q);
    }
  }

  lemma KindLess(objs: Objs, o: nat, q: nat)
    requires o in objs
    ensures |OfKind(objs - {o}, q)| == |OfKind(objs, q)| - if objs[o].kind == Some(q) then 1 else 0
  {
    var now := OfKind(objs - {o}, q);
    if objs[o].kind == Some(q) {
      assert now == OfKind(objs, q) - {o};
    } else {
      assert now == OfKind(objs, q);
    }
  }

  /** An object without subscriptions can come and go. */
  lemma LoneLinked(objs: Objs, subs: Subs, o: nat, x: Obj)
    requires Linked(objs, subs) && o !in objs && x.targets == [] && x.subscribers == []
    ensures Linked(objs[o := x], subs)
  {
    forall s | s in subs
      ensures Joins(objs[o := x], s, subs[s])
    {
      assert Joins(objs, s, subs[s]);
    }
  }

  lemma GoneLinked(objs: Objs, subs: Subs, o: nat)
    requires Linked(objs, subs) && o in objs && objs[o].targets == [] && objs[o].subscribers == []
    ensures Linked(objs - {o}, subs)
  {
    forall s | s in subs
      ensures Joins(objs - {o}, s, subs[s])
    {
      assert Joins(objs, s, subs[s]);
    }
  }

  /** A reference more, or a new type with one reference. */
  lemma HeldMore(objs: Objs, types: map<nat, int>, k: nat)
    requires Counted(objs, types)
    ensures Holding(objs, types[k := (if k in types then types[k] else 0) + 1], Some(k))
  {
    if k !in types {
      assert OfKind(objs, k) == {};
    }
  }

  lemma HeldNone(objs: Objs, types: map<nat, int>)
    ensures Holding(objs, types, None) <==> Counted(objs, types)
  {
  }

  /** ubusd_create_object_internal */
  lemma CreatedCounted(objs: Objs, types: map<nat, int>, o: nat, x: Obj)
    requires Holding(objs, types, x.kind) && o !in objs
    ensures Counted(objs[o := x], types)
  {
    forall q | q in types
      ensures types[q] == |OfKind(objs[o := x], q)|
    {
      KindMore(objs, o, x, q);
    }
  }

  /** The counts after ubus_unref_object_type. */
  function Unreferenced(types: map<nat, int>, k: Maybe<nat>): map<nat, int>
    requires k.Some? ==> k.value in types
  {
    if k.None? then types
    else if types[k.value] > 1 then types[k.value := types[k.value] - 1]
    else types - {k.value}
  }

  lemma UnreferencedCounted(objs: Objs, types: map<nat, int>, k: Maybe<nat>)
    requires Holding(objs, types, k)
    ensures Counted(objs, Unreferenced(types, k))
  {
    if k.Some? && types[k.value] <= 1 {
      assert OfKind(objs, k.value) == {};
      forall o | o in objs
        ensures objs[o].kind != k
      {
        assert o !in OfKind(objs, k.value);
      }
    }
  }

  lemma GoneHolding(objs: Objs, types: map<nat, int>, o: nat)
    requires Counted(objs, types) && o in objs
    ensures Holding(objs - {o}, types, objs[o].kind)
  {
    forall q | q in types
      ensures types[q] == |OfKind(objs - {o}, q)| + (if objs[o].kind == Some(q) then 1 else 0)
    {
      KindLess(objs, o, q);
    }
  }

  /** A new object, with whatever type it has been given. */
  lemma CreatedConsistent(objs: Objs, subs: Subs, types: map<nat, int>, types': map<nat, int>, o: nat, x: Obj)
    requires Consistent(objs, subs, types) && o !in objs && x == Obj(x.client, x.kind, [], [], [])
    requires Counted(objs[o := x], types')
    ensures Consistent(objs[o := x], subs, types')
  {
    LoneLinked(objs, subs, o, x);
  }

  lemma GoneConsistent(objs: Objs, subs: Subs, types: map<nat, int>, o: nat)
    requires Consistent(objs, subs, types) && o in objs && objs[o].targets == [] && objs[o].subscribers == []
    ensures objs[o].kind.Some? ==> objs[o].kind.value in types
    ensures Consistent(objs - {o}, subs, Unreferenced(types, objs[o].kind))
  {
    GoneLinked(objs, subs, o);
    GoneHolding(objs, types, o);
    UnreferencedCounted(objs - {o}, types, objs[o].kind);
  }

  /** The subscriptions of a list that are still there. */
  function In(list: seq<nat>, subs: Subs): seq<nat> {
    if list == [] then [] else (if list[0] in subs then [list[0]] else []) + In(list[1..], subs)
  }

  lemma {:induction false} InAll(list: seq<nat>, subs: Subs)
    requires forall s <- list :: s in subs
    ensures In(list, subs) == list
  {
    if list != [] {
      InAll(list[1..], subs);
    }
  }

  lemma {:induction false} InSame(list: seq<nat>, subs: Subs, s: nat)
    requires s !in list
    ensures In(list, subs - {s}) == In(list, subs)
  {
    if list != [] {
      InSame(list[1..], subs, s);
    }
  }

  lemma {:induction false} InLess(list: seq<nat>, subs: Subs, s: nat)
    requires Distinct(list) && s in subs
    ensures s in list ==> In(list, subs - {s}) == Without(In(list, subs), s)
  {
    if s in list {
      var rest := In(list[1..], subs);
      assert ([list[0]] + rest)[1..] == rest && [] + rest == rest;
      if list[0] == s {
        assert forall i :: 0 < i < |list| ==> list[i] == list[1..][i - 1];
        InSame(list[1..], subs, s);
      } else {
        assert list == [list[0]] + list[1..];
        InLess(list[1..], subs, s);
      }
    }
  }

  /** An object once only some subscriptions are left: its lists keep their order, and its owner has been told if the
      last subscriber is gone. */
  function Remains(x: Obj, subs: Subs): Obj { Notified(x.(targets := In(x.targets, subs)), In(x.subscribers, subs)) }

  ghost predicate Remained(now: Objs, was: Objs, subs: Subs) {
    now.Keys == was.Keys && forall q <- now :: now[q] == Remains(was[q], subs)
  }

  lemma RemainsAll(x: Obj, subs: Subs)
    requires (forall s <- x.targets :: s in subs) && (forall s <- x.subscribers :: s in subs)
    ensures Remains(x, subs) == x
  {
    InAll(x.targets, subs);
    InAll(x.subscribers, subs);
    assert x.told + [] == x.told;
  }

  lemma RemainedAll(objs: Objs, subs: Subs)
    requires Linked(objs, subs)
    ensures Remained(objs, objs, subs)
  {
    forall q | q in objs
      ensures objs[q] == Remains(objs[q], subs)
    {
      assert Lists(subs, q, objs[q]);
      RemainsAll(objs[q], subs);
    }
  }

  /** A subscription goes: seen from its subscriber, from its target and from any other object. */
  lemma SubscriberRemains(x: Obj, subs: Subs, s: nat)
    requires s in subs && s in x.targets && Distinct(x.targets) && s !in x.subscribers
    ensures var y := Remains(x, subs); Remains(x, subs - {s}) == y.(targets := Without(y.targets, s))
  {
    InLess(x.targets, subs, s);
    InSame(x.subscribers, subs, s);
  }

  lemma TargetRemains(x: Obj, subs: Subs, s: nat)
    requires s in subs && s in x.subscribers && Distinct(x.subscribers) && s !in x.targets
    requires s in In(x.subscribers, subs)
    ensures var y := Remains(x, subs); Remains(x, subs - {s}) == Notified(y, Without(y.subscribers, s))
  {
    InLess(x.subscribers, subs, s);
    InSame(x.targets, subs, s);
    assert x.told + [] == x.told;
  }

  lemma OtherRemains(x: Obj, subs: Subs, s: nat)
    requires s !in x.targets && s !in x.subscribers
    ensures Remains(x, subs - {s}) == Remains(x, subs)
  {
    InSame(x.targets, subs, s);
    InSame(x.subscribers, subs, s);
  }

  lemma {:induction false} InHas(list: seq<nat>, subs: Subs, s: nat)
    ensures s in In(list, subs) <==> s in list && s in subs
  {
    if list != [] {
      InHas(list[1..], subs, s);
    }
  }

  /** Each subscription is in the lists of its two ends only. */
  lemma OnlyEnds(was: Objs, before: Subs, s: nat, q: nat)
    requires Linked(was, before) && s in before && q in was
    ensures (s in was[q].targets <==> q == before[s].subscriber) && (s in was[q].subscribers <==> q == before[s].target)
    ensures before[s].subscriber != before[s].target && Distinct(was[q].targets) && Distinct(was[q].subscribers)
  {
    assert Lists(before, q, was[q]) && Joins(was, s, before[s]);
  }

  lemma StepRemains(was: Objs, before: Subs, now: Objs, subs: Subs, s: nat, q: nat)
    requires Linked(was, before) && s in subs && s in before && before[s] == subs[s] && q in was && q in now
    requires now[q] == Remains(was[q], subs) && Ends(now, subs[s], s)
    ensures Unsubscribed(now, subs[s], s)[q] == Remains(was[q], subs - {s})
  {
    OnlyEnds(was, before, s, q);
    InHas(was[q].subscribers, subs, s);
    if q == subs[s].subscriber {
      SubscriberRemains(was[q], subs, s);
    } else if q == subs[s].target {
      TargetRemains(was[q], subs, s);
    } else {
      OtherRemains(was[q], subs, s);
    }
  }

  lemma StepRemained(was: Objs, before: Subs, now: Objs, subs: Subs, s: nat)
    requires Linked(was, before) && s in subs && s in before && before[s] == subs[s]
    requires Remained(now, was, subs) && Ends(now, subs[s], s)
    ensures Remained(Unsubscribed(now, subs[s], s), was, subs - {s})
  {
    var next, left := Unsubscribed(now, subs[s], s), subs - {s};
    assert next.Keys == now.Keys;
    forall q | q in next
      ensures next[q] == Remains(was[q], left)
    {
      StepRemains(was, before, now, subs, s, q);
    }
  }

  lemma {:induction false} InTwice(list: seq<nat>, a: Subs, b: Subs)
    requires b.Keys <= a.Keys
    ensures In(In(list, a), b) == In(list, b)
  {
    if list != [] {
      InTwice(list[1..], a, b);
      var rest := In(list[1..], a);
      assert ([list[0]] + rest)[1..] == rest && [] + rest == rest && [] + In(list[1..], b) == In(list[1..], b);
    }
  }

  lemma RemainsTwice(x: Obj, a: Subs, b: Subs)
    requires b.Keys <= a.Keys
    ensures Remains(Remains(x, a), b) == Remains(x, b)
  {
    InTwice(x.targets, a, b);
    InTwice(x.subscribers, a, b);
    assert x.told + [] == x.told;
  }

  /** What is left when some objects are gone: of every other object, what remains of it. */
  ghost predicate Survive(now: Objs, was: Objs, subs: Subs) {
    forall q <- now :: q in was && now[q] == Remains(was[q], subs)
  }

  lemma SurviveTwice(c: Objs, b: Objs, a: Objs, subs: Subs, subs': Subs)
    requires Survive(b, a, subs) && Survive(c, b, subs') && subs'.Keys <= subs.Keys
    ensures Survive(c, a, subs')
  {
    forall q | q in c
      ensures q in a && c[q] == Remains(a[q], subs')
    {
      RemainsTwice(a[q], subs, subs');
    }
  }

  lemma CountedWhere(objs: Objs, types: map<nat, int>, k: nat)
    requires Counted(objs, types)
    ensures k in types <==> OfKind(objs, k) != {}
  {
    if OfKind(objs, k) != {} {
      var o :| o in OfKind(objs, k);
    }
  }

  /** Objects determine the reference counts. */
  lemma CountedOnce(objs: Objs, a: map<nat, int>, b: map<nat, int>)
    requires Counted(objs, a) && Counted(objs, b)
    ensures a == b
  {
    forall k
      ensures k in a <==> k in b
    {
      CountedWhere(objs, a, k);
      CountedWhere(objs, b, k);
    }
  }

  /** An object that was not there has part in no subscription. */
  lemma RestAll(was: Objs, before: Subs, subs: Subs, o: nat)
    requires Linked(was, before) && o !in was && Rest(subs, before, o)
    ensures subs == before
  {
    forall s | s in before
      ensures s in subs
    {
      assert Joins(was, s, before[s]);
    }
  }

  lemma SurviveAll(was: Objs, subs: Subs, now: Objs, o: nat, x: Obj)
    requires Linked(was, subs) && o !in was && now.Keys == was.Keys && Survive(now, was[o := x], subs)
    ensures now == was
  {
    forall q | q in now
      ensures now[q] == was[q]
    {
      assert was[o := x][q] == was[q] && Lists(subs, q, was[q]);
      RemainsAll(was[q], subs);
    }
  }

  /** Nothing is left of an object that had no subscriptions. */
  lemma Undone(was: Objs, before: Subs, counts: map<nat, int>, now: Objs, subs: Subs, types: map<nat, int>, o: nat,
      x: Obj)
    requires Consistent(was, before, counts) && Consistent(now, subs, types) && o !in was && now.Keys == was.Keys
    requires Survive(now, was[o := x], subs) && Rest(subs, before, o)
    ensures now == was && subs == before && types == counts
  {
    RestAll(was, before, subs, o);
    SurviveAll(was, subs, now, o, x);
    CountedOnce(was, types, counts);
  }

  /** What is left when some objects are gone: of every other object, what remains of it, and every subscription between
      such objects. */
  ghost predicate Gone(now: Objs, subs: Subs, was: Objs, before: Subs) {
    (&& Survive(now, was, subs)
     && (forall s <- subs :: s in before && subs[s] == before[s])
     && (forall s <- before :: before[s].subscriber in now && before[s].target in now ==> s in subs)) == true
  }

  lemma GoneNone(objs: Objs, subs: Subs)
    requires Linked(objs, subs)
    ensures Gone(objs, subs, objs, subs)
  {
    RemainedAll(objs, subs);
  }

  lemma GoneMore(next: Objs, subs': Subs, now: Objs, subs: Subs, was: Objs, before: Subs, o: nat)
    requires Gone(now, subs, was, before) && next.Keys == now.Keys - {o} && Survive(next, now, subs')
    requires Rest(subs', subs, o)
    ensures Gone(next, subs', was, before)
  {
    SurviveTwice(next, now, was, subs, subs');
  }

  /** Some subscriptions are left of those there were: all that are not of object o, as subscriber or as target. */
  predicate Left(now: Subs, was: Subs, o: nat, asTarget: bool) {
    && (forall s <- now :: s in was && now[s] == was[s])
    && (forall s <- was :: (if asTarget then was[s].target else was[s].subscriber) != o ==> s in now)
  }

  /** What remains is every subscription that object o has no part in. */
  predicate Rest(now: Subs, was: Subs, o: nat) {
    && (forall s <- now :: s in was && now[s] == was[s] && was[s].subscriber != o && was[s].target != o)
    && (forall s <- was :: was[s].subscriber != o && was[s].target != o ==> s in now)
  }

  lemma ListedSub(objs: Objs, subs: Subs, types: map<nat, int>, o: nat)
    requires Consistent(objs, subs, types) && o in objs
    ensures objs[o].targets != [] ==> objs[o].targets[0] in subs && subs[objs[o].targets[0]].subscriber == o
    ensures objs[o].subscribers != [] ==> objs[o].subscribers[0] in subs && subs[objs[o].subscribers[0]].target == o
    ensures objs[o].targets == [] ==> forall s <- subs :: subs[s].subscriber != o
    ensures objs[o].subscribers == [] ==> forall s <- subs :: subs[s].target != o
  {
    assert Lists(subs, o, objs[o]);
    assert forall s <- subs :: Joins(objs, s, subs[s]);
  }

  lemma KeysLess<T>(keys: set<T>, all: set<T>, left: set<T>, o: T)
    requires o in left && left <= all
    ensures keys - (all - left) - {o} == keys - (all - (left - {o}))
  {
  }

  datatype Status = Ok | NotFound | InvalidArgument

  /** The type of a new object, for which a type is named, or a signature given that may be well formed. */
  function KindOf(named: Maybe<nat>, signature: Maybe<bool>, newKind: nat, types: map<nat, int>): Maybe<nat> {
    if named.Some? then (if named.value in types then named else None)
    else if signature == Some(true) then Some(newKind) else None
  }

  /** The counts when one more object has the type. */
  function Shared(types: map<nat, int>, kind: Maybe<nat>): map<nat, int> {
    if kind.None? then types
    else types[kind.value := (if kind.value in types then types[kind.value] else 0) + 1]
  }

  /** A type that is named and there is shared; one that is not there gives no type, and a new one is made only for a
      good signature. Nothing else is counted. */
  lemma TypeShared(named: Maybe<nat>, signature: Maybe<bool>, newKind: nat, types: map<nat, int>)
    requires newKind !in types
    ensures var kind := KindOf(named, signature, newKind, types);
            var now := Shared(types, kind);
            && (named.Some? && named.value in types ==>
                  kind == named && now == types[named.value := types[named.value] + 1])
            && (named.Some? && named.value !in types ==> kind == None && now == types)
            && (named.None? && signature == Some(true) ==> kind == Some(newKind) && now == types[newKind := 1])
            && (named.None? && signature != Some(true) ==> kind == None && now == types)
  {
  }

  class Broker {
    var objs: Objs
    var subs: Subs
    /** The reference counts of the object types. */
    var types: map<nat, int>

    constructor ()
      ensures Valid() && objs == map[] && subs == map[] && types == map[]
    {
      objs, subs, types := map[], map[], map[];
    }

    ghost predicate Valid()
      reads this
    {
      Consistent(objs, subs, types)
    }

    /** ubus_subscribe; s is the new subscription. */
    method Subscribe(o: nat, t: nat, s: nat)
      requires Valid() && o in objs && t in objs && objs[o].client != objs[t].client && s !in subs
      modifies this`objs, this`subs
      ensures Valid() && subs == old(subs)[s := Sub(o, t)]
      ensures objs == Relisted(old(objs), o, [s] + old(objs)[o].targets, t, [s] + old(objs)[t].subscribers)
    {
      SubscribedConsistent(objs, subs, types, o, t, s);
      subs := subs[s := Sub(o, t)];
      objs := Relist(objs, o, [s] + objs[o].targets, t, [s] + objs[t].subscribers);
    }

    /** ubus_unsubscribe */
    method Unsubscribe(s: nat)
      requires Valid() && s in subs
      modifies this`objs, this`subs
      ensures Valid() && subs == old(subs) - {s}
      ensures Ends(old(objs), old(subs)[s], s) && objs == Unsubscribed(old(objs), old(subs)[s], s)
    {
      UnsubscribedConsistent(objs, subs, types, s);
      var u := subs[s];
      subs := subs - {s};
      objs := Relist(objs, u.subscriber, Without(objs[u.subscriber].targets, s), u.target,
        Without(objs[u.target].subscribers, s));
    }

    /** ubus_unref_object_type */
    method Unref(k: nat)
      requires k in types
      modifies this`types
      ensures types == Unreferenced(old(types), Some(k))
    {
      var count := types[k] - 1;
      if count > 0 {
        types := types[k := count];
        return;
      }
      types := types - {k};
    }

    /** The type of a new object: ubus_get_obj_type for one that is named, ubus_create_obj_type for a signature. A
        signature that is not well formed gives no type, and the new type goes again. */
    method GetType(named: Maybe<nat>, signature: Maybe<bool>, newKind: nat) returns (kind: Maybe<nat>)
      requires Counted(objs, types) && newKind !in types
      modifies this`types
      ensures Holding(objs, types, kind) && kind == KindOf(named, signature, newKind, old(types))
      ensures types == Shared(old(types), kind)
    {
      HeldNone(objs, types);
      if named.Some? {
        if named.value !in types {
          return None;
        }
        HeldMore(objs, types, named.value);
        types := types[named.value := types[named.value] + 1];
        return named;
      }
      if signature.None? {
        return None;
      }
      HeldMore(objs, types, newKind);
      types := types[newKind := 1];
      if !signature.value {
        UnreferencedCounted(objs, types, Some(newKind));
        Unref(newKind);
        HeldNone(objs, types);
        return None;
      }
      return Some(newKind);
    }

    /** ubusd_create_object up to the path */
    method Create(cl: nat, o: nat, named: Maybe<nat>, signature: Maybe<bool>, newKind: nat)
      requires Valid() && o !in objs && newKind !in types
      modifies this`objs, this`types
      ensures Valid() && objs == old(objs)[o := Obj(cl, KindOf(named, signature, newKind, old(types)), [], [], [])]
      ensures types == Shared(old(types), objs[o].kind)
    {
      ghost var were := types;
      var kind := GetType(named, signature, newKind);
      var x := Obj(cl, kind, [], [], []);
      CreatedCounted(objs, types, o, x);
      CreatedConsistent(objs, subs, were, types, o, x);
      objs := objs[o := x];
      Retain(kind);
    }

    /** The object takes its reference, and the one that GetType took is given back. */
    method Retain(kind: Maybe<nat>)
      requires kind.Some? ==> kind.value in types && types[kind.value] > 0
      modifies this`types
      ensures types == old(types)
    {
      if kind.Some? {
        types := types[kind.value := types[kind.value] + 1];
        Unref(kind.value);
      }
    }

    /** The first loop of ubusd_free_object: all that the object has subscribed to. */
    method DropTargets(o: nat)
      requires Valid() && o in objs
      modifies this`objs, this`subs
      ensures Valid() && SameOwner(objs, old(objs)) && objs[o].targets == [] && Left(subs, old(subs), o, false)
      ensures Remained(objs, old(objs), subs)
    {
      RemainedAll(objs, subs);
      while objs[o].targets != []
        invariant Valid() && SameOwner(objs, old(objs)) && Left(subs, old(subs), o, false)
        invariant Remained(objs, old(objs), subs)
        decreases |objs[o].targets|
      {
        ListedSub(objs, subs, types, o);
        Cut(objs[o].targets[0], old(objs), old(subs));
      }
    }

    /** ubus_unsubscribe, seen from what was there before. */
    method Cut(s: nat, ghost was: Objs, ghost before: Subs)
      requires Valid() && s in subs && s in before && before[s] == subs[s] && Linked(was, before)
      requires Remained(objs, was, subs)
      modifies this`objs, this`subs
      ensures Valid() && subs == old(subs) - {s} && Remained(objs, was, subs) && SameOwner(objs, old(objs))
      ensures var u := old(subs)[s];
              && u.subscriber in objs && u.target in objs && u.subscriber != u.target
              && |objs[u.subscriber].targets| == old(|objs[u.subscriber].targets|) - 1
              && |objs[u.target].subscribers| == old(|objs[u.target].subscribers|) - 1
              && objs[u.target].targets == old(objs[u.target].targets)
    {
      UnsubscribedConsistent(objs, subs, types, s);
      StepRemained(was, before, objs, subs, s);
      UnsubscribedShorter(objs, subs[s], s);
      Unsubscribe(s);
    }

    /** The second loop, with ubus_notify_unsubscribe: all that have subscribed to the object. */
    method DropSubscribers(o: nat)
      requires Valid() && o in objs && objs[o].targets == []
      modifies this`objs, this`subs
      ensures Valid() && SameOwner(objs, old(objs)) && objs[o].targets == [] && objs[o].subscribers == []
      ensures Left(subs, old(subs), o, true)
      ensures Remained(objs, old(objs), subs)
    {
      RemainedAll(objs, subs);
      while objs[o].subscribers != []
        invariant Valid() && SameOwner(objs, old(objs)) && objs[o].targets == [] && Left(subs, old(subs), o, true)
        invariant Remained(objs, old(objs), subs)
        decreases |objs[o].subscribers|
      {
        ListedSub(objs, subs, types, o);
        Cut(objs[o].subscribers[0], old(objs), old(subs));
      }
    }

    /** Both loops: exactly the subscriptions the object is part of go. */
    method DropAll(o: nat)
      requires Valid() && o in objs
      modifies this`objs, this`subs
      ensures Valid() && SameOwner(objs, old(objs)) && objs[o].targets == [] && objs[o].subscribers == []
      ensures Rest(subs, old(subs), o) && Survive(objs, old(objs), subs)
    {
      ghost var was := objs;
      DropTargets(o);
      ListedSub(objs, subs, types, o);
      ghost var mid, some := objs, subs;
      DropSubscribers(o);
      ListedSub(objs, subs, types, o);
      SurviveTwice(objs, mid, was, some, subs);
    }

    /** The end of ubusd_free_object */
    method Erase(o: nat)
      requires Valid() && o in objs && objs[o].targets == [] && objs[o].subscribers == []
      modifies this`objs, this`types
      ensures Valid() && objs == old(objs) - {o}
    {
      GoneConsistent(objs, subs, types, o);
      var kind := objs[o].kind;
      objs := objs - {o};
      if kind.Some? {
        Unref(kind.value);
      }
    }

    /** ubusd_free_object: the object goes with exactly the subscriptions it was part of, and the others lose just
        those. */
    method FreeObject(o: nat)
      requires Valid() && o in objs
      modifies this
      ensures Valid() && objs.Keys == old(objs).Keys - {o} && Survive(objs, old(objs), subs) && Rest(subs, old(subs), o)
    {
      DropAll(o);
      Erase(o);
    }

    /** Freeing an object that has just been created leaves everything as it was before. */
    method Undo(o: nat, ghost was: Objs, ghost before: Subs, ghost counts: map<nat, int>)
      requires Valid() && o in objs && o !in was && objs == was[o := objs[o]] && subs == before
      requires Consistent(was, before, counts)
      modifies this
      ensures Valid() && objs == was && subs == before && types == counts
    {
      ghost var x := objs[o];
      FreeObject(o);
      Undone(was, before, counts, objs, subs, types, o, x);
    }

    /** ubusd_handle_add_watch */
    method AddWatch(cl: nat, o: nat, t: nat, s: nat) returns (status: Status)
      requires Valid() && s !in subs
      modifies this`objs, this`subs
      ensures Valid()
      ensures status == if o !in old(objs) then NotFound
                        else if old(objs)[o].client != cl then InvalidArgument
                        else if t !in old(objs) then NotFound
                        else if old(objs)[t].client == cl then InvalidArgument
                        else Ok
      ensures status != Ok ==> objs == old(objs) && subs == old(subs)
      ensures status == Ok ==> o != t && subs == old(subs)[s := Sub(o, t)]
      ensures status == Ok ==>
                objs == Relisted(old(objs), o, [s] + old(objs)[o].targets, t, [s] + old(objs)[t].subscribers)
    {
      if o !in objs {
        return NotFound;
      }
      if objs[o].client != cl {
        return InvalidArgument;
      }
      if t !in objs {
        return NotFound;
      }
      if objs[t].client == cl {
        return InvalidArgument;
      }
      Subscribe(o, t, s);
      return Ok;
    }

    /** ubusd_handle_remove_watch: the first subscription of the object to the target. */
    method RemoveWatch(cl: nat, o: nat, t: nat) returns (status: Status, s: nat)
      requires Valid()
      modifies this`objs, this`subs
      ensures Valid()
      ensures o in old(objs) && old(objs)[o].client == cl ==>
                status == if exists q :: q in old(subs) && old(subs)[q] == Sub(o, t) then Ok else NotFound
      ensures status != Ok ==> objs == old(objs) && subs == old(subs)
      ensures status == Ok ==> s in old(subs) && old(subs)[s] == Sub(o, t) && subs == old(subs) - {s}
                               && Ends(old(objs), Sub(o, t), s) && objs == Unsubscribed(old(objs), Sub(o, t), s)
      ensures o !in old(objs) ==> status == NotFound
      ensures o in old(objs) && old(objs)[o].client != cl ==> status == InvalidArgument
    {
      if o !in objs {
        return NotFound, 0;
      }
      if objs[o].client != cl {
        return InvalidArgument, 0;
      }
      var found := FindWatch(o, t);
      if found.None? {
        return NotFound, 0;
      }
      Unsubscribe(found.value);
      return Ok, found.value;
    }

    /** Its search. */
    method FindWatch(o: nat, t: nat) returns (r: Maybe<nat>)
      requires Valid() && o in objs
      ensures r.Some? ==> r.value in subs && subs[r.value] == Sub(o, t)
      ensures r.None? ==> forall q <- subs :: subs[q] != Sub(o, t)
    {
      var list, i := objs[o].targets, 0;
      assert Lists(subs, o, objs[o]);
      while i < |list|
        invariant i <= |list| && forall j :: 0 <= j < i ==> subs[list[j]].target != t
      {
        assert list[i] in list;
        if subs[list[i]].target == t {
          return Some(list[i]);
        }
        i := i + 1;
      }
      forall q | q in subs
        ensures subs[q] != Sub(o, t)
      {
        assert Joins(objs, q, subs[q]);
      }
      return None;
    }
  }
}
