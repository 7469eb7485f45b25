/** What clients of ubusd see of its objects, whatever they do in whatever order: a book of objects, paths and
    subscriptions, which the objects and trees of the daemon implement. */
module UbusBook {
  import opened Common
  import opened UbusBroker
  import opened UbusDirectory
  import opened UbusRegistry
  import R = UbusRegistry
  import E = UbusEvent

  datatype Known = Known(client: nat, path: Maybe<string>)

  datatype Book = Book(known: map<nat, Known>, subs: Subs)

  datatype Op =
    | Add(cl: nat, o: nat, named: Maybe<nat>, signature: Maybe<bool>, path: Maybe<string>)
    | Free(o: nat)
    | Close(cl: nat)
    | Watch(cl: nat, o: nat, t: nat)
    | Unwatch(cl: nat, o: nat, t: nat)
    | Find(path: Maybe<string>)

  /** What a client is told; s is the subscription that has come or gone. */
  datatype Answer = Nothing | Added(ok: bool) | Watched(status: Status, s: nat) | Listed(found: seq<nat>)

  ghost predicate Taken(b: Book, path: string) { exists q :: q in b.known && b.known[q].path == Some(path) }

  ghost function Ruling(b: Book, cl: nat, o: nat, t: nat): Status {
    if o !in b.known then NotFound else if b.known[o].client != cl then InvalidArgument
    else if t !in b.known then NotFound else if b.known[t].client == cl then InvalidArgument else Ok
  }

  ghost function Sought(b: Book, path: Maybe<string>): set<nat> {
    set o | o in b.known && b.known[o].path.Some? && Asked(path, b.known[o].path.value)
  }

  /** The answers that are right. */
  ghost predicate Right(b: Book, op: Op, a: Answer) {
    match op
    case Add(_, o, _, _, path) => a.Added? && (a.ok <==> o !in b.known && (path.None? || !Taken(b, path.value)))
    case Free(_) => a.Nothing?
    case Close(_) => a.Nothing?
    case Watch(cl, o, t) => a.Watched? && a.status == Ruling(b, cl, o, t) && a.s !in b.subs
    case Unwatch(cl, o, t) =>
      && a.Watched?
      && (o !in b.known ==> a.status == NotFound)
      && (o in b.known && b.known[o].client != cl ==> a.status == InvalidArgument)
      && (o in b.known && b.known[o].client == cl ==>
            a.status == if exists q :: q in b.subs && b.subs[q] == Sub(o, t) then Ok else NotFound)
      && (a.status == Ok ==> a.s in b.subs && b.subs[a.s] == Sub(o, t))
    case Find(path) => a.Listed? && E.Lists(a.found, Sought(b, path))
  }

  ghost function Between(known: map<nat, Known>, subs: Subs): Subs {
    map s | s in subs && subs[s].subscriber in known && subs[s].target in known :: subs[s]
  }

  ghost function Only(b: Book, known: map<nat, Known>): Book { Book(known, Between(known, b.subs)) }

  /** What the book becomes. */
  ghost function Done(b: Book, op: Op, a: Answer): Book {
    match op
    case Add(cl, o, _, _, path) => if a.Added? && a.ok then b.(known := b.known[o := Known(cl, path)]) else b
    case Free(o) => if o in b.known then Only(b, b.known - {o}) else b
    case Close(cl) => Only(b, map o | o in b.known && b.known[o].client != cl :: b.known[o])
    case Watch(cl, o, t) => if a.Watched? && a.status == Ok then b.(subs := b.subs[a.s := Sub(o, t)]) else b
    case Unwatch(cl, o, t) => if a.Watched? && a.status == Ok then b.(subs := b.subs - {a.s}) else b
    case Find(_) => b
  }

  ghost predicate SamePath(b: Book, o: nat, q: nat)
    requires o in b.known && q in b.known
  {
    b.known[o].path.Some? && b.known[o].path == b.known[q].path
  }

  /** No two objects have the same path, and each subscription joins objects of two clients. */
  ghost predicate Sane(b: Book) {
    && (forall o, q {:trigger Two(o, q)} :: Two(o, q) && o in b.known && q in b.known && SamePath(b, o, q) ==> o == q)
    && (forall s <- b.subs :: var u := b.subs[s];
                              && u.subscriber in b.known && u.target in b.known
                              && b.known[u.subscriber].client != b.known[u.target].client)
  }

  lemma DoneSane(b: Book, op: Op, a: Answer)
    requires Sane(b) && Right(b, op, a)
    ensures Sane(Done(b, op, a))
  {
  }

  // ---- the daemon ----

  ghost function PathOf(names: map<nat, string>, o: nat): Maybe<string> { if o in names then Some(names[o]) else None }

  ghost function KnownOf(objs: Objs, names: map<nat, string>): map<nat, Known> {
    map o | o in objs :: Known(objs[o].client, PathOf(names, o))
  }

  ghost function View(r: Registry): Book
    reads r.broker, r.paths
  {
    Book(KnownOf(r.broker.objs, r.paths.names), r.broker.subs)
  }

  method FreshId<T>(m: map<nat, T>) returns (k: nat)
    ensures k !in m
  {
    k := 0;
    var left := m.Keys;
    while left != {}
      invariant forall q <- m :: q in left || q < k
    {
      var q :| q in left;
      k := if q < k then k else q + 1;
      left := left - {q};
    }
  }

  lemma TakenIs(objs: Objs, names: map<nat, string>, subs: Subs, path: string)
    requires names.Keys <= objs.Keys
    ensures Taken(Book(KnownOf(objs, names), subs), path) <==> path in names.Values
  {
    if path in names.Values {
      var o :| o in names && names[o] == path;
      assert o in KnownOf(objs, names);
    }
  }

  lemma KnownMore(objs: Objs, names: map<nat, string>, o: nat, x: Obj, path: Maybe<string>)
    requires o !in objs && names.Keys <= objs.Keys
    ensures var names' := if path.Some? then names[o := path.value] else names;
            KnownOf(objs[o := x], names') == KnownOf(objs, names)[o := Known(x.client, path)]
  {
  }

  /** Some objects are gone. */
  lemma KnownLess(now: Objs, was: Objs, subs: Subs, names: map<nat, string>)
    requires Survive(now, was, subs)
    ensures KnownOf(now, Of(names, now.Keys)) == map o | o in KnownOf(was, names) && o in now :: KnownOf(was, names)[o]
  {
  }

  lemma RestBetween(objs: Objs, names: map<nat, string>, now: Subs, was: Subs, o: nat)
    requires Rest(now, was, o) && forall s <- was :: was[s].subscriber in objs && was[s].target in objs
    ensures now == Between(KnownOf(objs, names) - {o}, was)
  {
  }

  lemma GoneBetween(now: Objs, subs: Subs, was: Objs, before: Subs, names: map<nat, string>)
    requires Gone(now, subs, was, before) && forall s <- subs :: subs[s].subscriber in now && subs[s].target in now
    ensures subs == Between(KnownOf(now, names), before)
  {
  }

  lemma Joined(objs: Objs, subs: Subs, types: map<nat, int>)
    requires Coherent(objs, subs, types)
    ensures forall s <- subs :: subs[s].subscriber in objs && subs[s].target in objs
  {
    CoherentIs(objs, subs, types);
    assert forall s <- subs :: Joins(objs, s, subs[s]);
  }

  lemma SameKnown(now: Objs, was: Objs, names: map<nat, string>)
    requires SameOwner(now, was)
    ensures KnownOf(now, names) == KnownOf(was, names)
  {
  }

  /** ubusd_handle_add_watch */
  method AddWatch(r: Registry, cl: nat, o: nat, t: nat) returns (a: Answer)
    requires r.Valid()
    modifies r.Repr()
    ensures r.Valid() && r.Repr() == old(r.Repr())
    ensures Right(old(View(r)), Watch(cl, o, t), a) && View(r) == Done(old(View(r)), Watch(cl, o, t), a)
  {
    ghost var objs := r.broker.objs;
    var s := FreshId(r.broker.subs);
    var status := R.AddWatch(r.broker, cl, o, t, s);
    assert r.paths.Repr() == old(r.paths.Repr()) && r.paths.Valid() == true;
    a := Watched(status, s);
    SameKnown(r.broker.objs, objs, r.paths.names);
  }

  /** ubusd_handle_remove_watch */
  method RemoveWatch(r: Registry, cl: nat, o: nat, t: nat) returns (a: Answer)
    requires r.Valid()
    modifies r.Repr()
    ensures r.Valid() && r.Repr() == old(r.Repr())
    ensures Right(old(View(r)), Unwatch(cl, o, t), a) && View(r) == Done(old(View(r)), Unwatch(cl, o, t), a)
  {
    ghost var objs := r.broker.objs;
    var status, s := R.RemoveWatch(r.broker, cl, o, t);
    assert r.paths.Repr() == old(r.paths.Repr()) && r.paths.Valid() == true;
    a := Watched(status, s);
    SameKnown(r.broker.objs, objs, r.paths.names);
  }

  method AddObject(r: Registry, op: Op) returns (a: Answer)
    requires r.Valid() && op.Add?
    modifies r.Repr()
    ensures r.Valid() && fresh(r.Repr() - old(r.Repr()))
    ensures Right(old(View(r)), op, a) && View(r) == Done(old(View(r)), op, a)
  {
    if op.o in r.broker.objs {
      return Added(false);
    }
    ghost var objs, names, subs := r.broker.objs, r.paths.names, r.broker.subs;
    var newKind := FreshId(r.broker.types);
    var ok := r.AddObject(op.cl, op.o, op.named, op.signature, newKind, op.path);
    a := Added(ok);
    if op.path.Some? {
      TakenIs(objs, names, subs, op.path.value);
    }
    if ok {
      KnownMore(objs, names, op.o, r.broker.objs[op.o], op.path);
    }
  }

  method FreeObject(r: Registry, o: nat)
    requires r.Valid()
    modifies r.Repr()
    ensures r.Valid() && r.Repr() <= old(r.Repr()) && View(r) == Done(old(View(r)), Free(o), Nothing)
  {
    if o !in r.broker.objs {
      return;
    }
    ghost var objs, names, subs := r.broker.objs, r.paths.names, r.broker.subs;
    Joined(objs, subs, r.broker.types);
    r.FreeObject(o);
    OfAll(names, objs.Keys);
    OfLess(names, objs.Keys, o);
    KnownLess(r.broker.objs, objs, r.broker.subs, names);
    RestBetween(objs, names, r.broker.subs, subs, o);
  }

  method FreeClient(r: Registry, cl: nat)
    requires r.Valid()
    modifies r.Repr()
    ensures r.Valid() && r.Repr() <= old(r.Repr()) && View(r) == Done(old(View(r)), Close(cl), Nothing)
  {
    ghost var objs, names, subs := r.broker.objs, r.paths.names, r.broker.subs;
    r.FreeClient(cl);
    BookClosed(r.broker.objs, r.broker.subs, r.broker.types, objs, subs, names, cl);
  }

  lemma ClosedKnown(now: Objs, was: Objs, subs: Subs, names: map<nat, string>, cl: nat)
    requires Survive(now, was, subs) && now.Keys == set o | o in was && was[o].client != cl
    ensures KnownOf(now, Of(names, now.Keys))
         == map o | o in KnownOf(was, names) && KnownOf(was, names)[o].client != cl :: KnownOf(was, names)[o]
  {
  }

  lemma BookClosed(now: Objs, subs: Subs, types: map<nat, int>, was: Objs, before: Subs, names: map<nat, string>,
      cl: nat)
    requires Coherent(now, subs, types) && Gone(now, subs, was, before)
    requires now.Keys == set o | o in was && was[o].client != cl
    ensures Book(KnownOf(now, Of(names, now.Keys)), subs) == Done(Book(KnownOf(was, names), before), Close(cl), Nothing)
  {
    Joined(now, subs, types);
    ClosedKnown(now, was, subs, names, cl);
    GoneBetween(now, subs, was, before, Of(names, now.Keys));
  }

  lemma SoughtIs(objs: Objs, names: map<nat, string>, subs: Subs, path: Maybe<string>)
    requires names.Keys <= objs.Keys
    ensures Sought(Book(KnownOf(objs, names), subs), path) == set o | o in names && Asked(path, names[o])
  {
  }

  /** One operation. */
  method Step(r: Registry, op: Op) returns (a: Answer)
    requires r.Valid()
    modifies r.Repr()
    ensures r.Valid() && fresh(r.Repr() - old(r.Repr()))
    ensures Right(old(View(r)), op, a) && View(r) == Done(old(View(r)), op, a)
  {
    a := Nothing;
    match op
    case Add(_, _, _, _, _) => a := AddObject(r, op);
    case Free(o) => FreeObject(r, o);
    case Close(cl) => FreeClient(r, cl);
    case Watch(cl, o, t) => a := AddWatch(r, cl, o, t);
    case Unwatch(cl, o, t) => a := RemoveWatch(r, cl, o, t);
    case Find(path) => a := Search(r, path);
  }

  method Search(r: Registry, path: Maybe<string>) returns (a: Answer)
    requires r.Valid()
    ensures Right(View(r), Find(path), a)
  {
    var found := r.paths.Lookup(path);
    SoughtIs(r.broker.objs, r.paths.names, r.broker.subs, path);
    a := Listed(found);
  }

  ghost function AllDone(b: Book, ops: seq<Op>, answers: seq<Answer>): Book
    requires |answers| == |ops|
  {
    if ops == [] then b
    else var k := |ops| - 1; Done(AllDone(b, ops[..k], answers[..k]), ops[k], answers[k])
  }

  /** Each answer is right for the book as it was by then. */
  ghost predicate AllRight(b: Book, ops: seq<Op>, answers: seq<Answer>)
    requires |answers| == |ops|
  {
    || ops == []
    || var k := |ops| - 1;
       AllRight(b, ops[..k], answers[..k]) && Right(AllDone(b, ops[..k], answers[..k]), ops[k], answers[k])
  }

  /** The book has become this, and all answers were right. */
  ghost predicate Kept(b: Book, ops: seq<Op>, answers: seq<Answer>, now: Book) {
    (|answers| == |ops| && AllRight(b, ops, answers) && now == AllDone(b, ops, answers)) == true
  }

  lemma OneMore(b: Book, ops: seq<Op>, k: nat, answers: seq<Answer>, now: Book, a: Answer)
    requires k < |ops| && Kept(b, ops[..k], answers, now) && Right(now, ops[k], a)
    ensures Kept(b, ops[..k + 1], answers + [a], Done(now, ops[k], a))
  {
    assert ops[..k + 1][..k] == ops[..k] && (answers + [a])[..k] == answers;
  }

  method Next(r: Registry, ops: seq<Op>, k: nat, answers: seq<Answer>, ghost b: Book) returns (more: seq<Answer>)
    requires r.Valid() && k < |ops| && Kept(b, ops[..k], answers, View(r))
    modifies r.Repr()
    ensures r.Valid() && fresh(r.Repr() - old(r.Repr())) && Kept(b, ops[..k + 1], more, View(r))
  {
    ghost var now := View(r);
    var a := Step(r, ops[k]);
    OneMore(b, ops, k, answers, now, a);
    more := answers + [a];
  }

  /** Whatever clients do in whatever order, the daemon keeps the book: every answer is right. */
  method Run(r: Registry, ops: seq<Op>) returns (answers: seq<Answer>)
    requires r.Valid()
    modifies r.Repr()
    ensures r.Valid() && fresh(r.Repr() - old(r.Repr())) && Kept(old(View(r)), ops, answers, View(r))
  {
    answers := [];
    ghost var b, parts := View(r), r.Repr();
    for k := 0 to |ops|
      invariant r.Valid() && fresh(r.Repr() - parts) && Kept(b, ops[..k], answers, View(r))
    {
      answers := Next(r, ops, k, answers, b);
    }
    assert ops[..|ops|] == ops;
  }

  /** In every book that comes about so, no two objects have the same path, and each subscription joins objects of two
      clients. */
  lemma {:induction false} AlwaysSane(b: Book, ops: seq<Op>, answers: seq<Answer>)
    requires Sane(b) && |answers| == |ops| && AllRight(b, ops, answers)
    ensures Sane(AllDone(b, ops, answers))
  {
    if ops != [] {
      var k := |ops| - 1;
      AlwaysSane(b, ops[..k], answers[..k]);
      DoneSane(AllDone(b, ops[..k], answers[..k]), ops[k], answers[k]);
    }
  }
}
