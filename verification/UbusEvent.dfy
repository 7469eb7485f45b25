/** Events of ubusd (ubusd_event.c): who gets one, although the scan over the sorted patterns stops early. */
module UbusEvent {
  import opened Common
  import opened AvlModel
  import opened AvlOrder
  import opened Avl
  import opened AvlIndex
  import opened UbusOrder

  /** struct event_source: the object that registered a pattern, and whether the pattern ended in a star. */
  datatype Source = Source(obj: nat, partial: bool)

  /** A pattern without its star matches the event id. */
  predicate Matches(key: string, partial: bool, id: string) {
    key == id || (partial && key <= id)
  }

  /** The pattern at node n is for an object of another client than cl, and matches. */
  predicate Hit(n: Node, sources: map<Node, Source>, owner: map<nat, nat>, cl: nat, id: string) {
    && n.key.Text? && n in sources && sources[n].obj in owner
    && Matches(n.key.text, sources[n].partial, id) && owner[sources[n].obj] != cl
  }

  /** The objects whose patterns are hit. */
  ghost function Targets(ns: seq<Node>, sources: map<Node, Source>, owner: map<nat, nat>, cl: nat, id: string)
    : set<nat>
  {
    set n | n in ns && Hit(n, sources, owner, cl, id) :: sources[n].obj
  }

  lemma {:induction false} SharedIs(s: string, t: string, n: nat)
    requires n <= |s| && n <= |t| && forall i :: 0 <= i < n ==> s[i] == t[i]
    requires n < |s| && n < |t| ==> s[n] != t[n]
    ensures Shared(s, t) == n
  {
    if n > 0 {
      SharedIs(s[1..], t[1..], n - 1);
    }
  }

  /** strmatch_len: the length of the common start, and whether the strings are the same. */
  method Match(s: string, t: string) returns (len: nat, full: bool)
    ensures len == Shared(s, t) && full == (s == t)
  {
    len := 0;
    while len < |s| && len < |t| && s[len] == t[len]
      invariant len <= |s| && len <= |t| && forall i :: 0 <= i < len ==> s[i] == t[i]
    {
      len := len + 1;
    }
    full := len == |s| == |t|;
    SharedIs(s, t, len);
  }

  /** Once a key shares less with id than the key before it, no key from there on is a prefix of id. */
  lemma {:induction false} ScanOver(s: seq<Node>, id: string, i: nat, k: nat)
    requires Sorted(KeyCmp, s) && (forall n <- s :: n.key.Text?) && 0 < i <= k < |s|
    requires Shared(id, s[i].key.text) < Shared(id, s[i - 1].key.text)
    ensures !(s[k].key.text <= id)
  {
    assert s[i - 1] in s && s[i] in s && s[k] in s;
    assert Two(i - 1, i) && Two(i, k);
    SharesLess(id, s[i - 1].key.text, s[i].key.text);
    StrCmpSigns(s[i].key.text, s[i].key.text);
    PastIsOver(id, s[i].key.text, s[k].key.text);
  }

  lemma TargetsStep(ns: seq<Node>, i: nat, sources: map<Node, Source>, owner: map<nat, nat>, cl: nat, id: string)
    requires i < |ns|
    ensures Targets(ns[..i + 1], sources, owner, cl, id)
         == Targets(ns[..i], sources, owner, cl, id)
            + if Hit(ns[i], sources, owner, cl, id) then {sources[ns[i]].obj} else {}
  {
    assert forall n :: n in ns[..i + 1] <==> n in ns[..i] || n == ns[i];
  }

  /** Nodes that are not hit add nothing. */
  lemma TargetsRest(ns: seq<Node>, i: nat, sources: map<Node, Source>, owner: map<nat, nat>, cl: nat, id: string)
    requires i <= |ns| && forall k :: i <= k < |ns| ==> !Hit(ns[k], sources, owner, cl, id)
    ensures Targets(ns, sources, owner, cl, id) == Targets(ns[..i], sources, owner, cl, id)
  {
    assert forall n :: n in ns && Hit(n, sources, owner, cl, id) <==> n in ns[..i] && Hit(n, sources, owner, cl, id);
  }

  /** sent lists the elements of got, each once. */
  ghost predicate Lists(sent: seq<nat>, got: set<nat>) {
    (forall o :: o in sent <==> o in got) && forall i, j :: 0 <= i < j < |sent| ==> sent[i] != sent[j]
  }

  lemma ListsMore(sent: seq<nat>, got: set<nat>, o: nat)
    requires Lists(sent, got) && o !in got
    ensures Lists(sent + [o], got + {o})
  {
  }

  /** The objects with event_seen at the number n of this event are those that got it; none is ahead of it. */
  ghost predicate Marks(seen: map<nat, int>, n: int, got: set<nat>) {
    forall q <- seen :: seen[q] <= n && (seen[q] == n <==> q in got)
  }

  /** ubusd_send_event_msg: an object gets an event at most once, and none from its own client. */
  method Deliver(cl: nat, o: nat, owner: map<nat, nat>, seen: map<nat, int>, n: int, ghost got: set<nat>)
    returns (now: bool, seen': map<nat, int>)
    requires o in owner && o in seen && Marks(seen, n, got)
    ensures seen'.Keys == seen.Keys && now == (owner[o] != cl && o !in got)
    ensures Marks(seen', n, got + if now then {o} else {})
  {
    if owner[o] == cl || seen[o] == n {
      return false, seen;
    }
    return true, seen[o := n];
  }

  /** Each node of the list belongs to a known object, and no object is marked with an event to come. */
  ghost predicate Sourced(list: seq<Node>, sources: map<Node, Source>, owner: map<nat, nat>,
                          seen: map<nat, int>, n: int)
  {
    (&& (forall x <- list :: x.key.Text? && x in sources && sources[x].obj in owner && sources[x].obj in seen)
     && (forall x <- sources :: x in list)
     && owner.Keys == seen.Keys && n > 0 && (forall o <- seen :: seen[o] <= n)) == true
  }

  lemma SourcedMore(list: seq<Node>, sources: map<Node, Source>, owner: map<nat, nat>, seen: map<nat, int>, n: int,
      x: Node, src: Source)
    requires Sourced(list, sources, owner, seen, n) && x.key.Text? && src.obj in owner
    ensures Sourced(SortedInsert(KeyCmp, list, x), sources[x := src], owner, seen, n)
  {
    var more := SortedInsert(KeyCmp, list, x);
    forall y | y in more
      ensures y in list || y == x
    {
      InsertAdds(KeyCmp, list, x, y);
    }
    forall y | y in sources || y == x
      ensures y in more
    {
      InsertAdds(KeyCmp, list, x, y);
    }
  }

  lemma SourcedLess(list: seq<Node>, sources: map<Node, Source>, owner: map<nat, nat>, seen: map<nat, int>, n: int,
      x: Node)
    requires Sourced(list, sources, owner, seen, n) && x in list && Distinct(list)
    ensures Sourced(Without(list, x), sources - {x}, owner, seen, n)
  {
    WithoutOne(list, x);
    var less := Without(list, x);
    assert forall y <- less :: y in list && y != x;
    assert forall y <- sources - {x} :: y in list && y in less;
  }

  /** A pattern as it is registered: for which object, the text without its star, and whether there was a star. */
  datatype Want = Want(obj: nat, key: string, partial: bool)

  /** All there is to know about events: who owns the objects, and what they listen to. */
  datatype Desk = Desk(owner: map<nat, nat>, wants: set<Want>)

  /** What clients can do. */
  datatype Op =
    | Create(o: nat, cl: nat)
    | Listen(cl: nat, o: nat, pattern: string)
    | Emit(cl: nat, id: string)
    | Remove(o: nat)

  function Starred(pattern: string): bool { pattern != "" && pattern[|pattern| - 1] == '*' }

  function Stem(pattern: string): string { if Starred(pattern) then pattern[..|pattern| - 1] else pattern }

  ghost function Done(d: Desk, op: Op): Desk {
    match op
    case Create(o, cl) => if o in d.owner then d else d.(owner := d.owner[o := cl])
    case Listen(cl, o, pattern) =>
      if o < SYSTEM_MAX || o !in d.owner || d.owner[o] != cl then d
      else d.(wants := d.wants + {Want(o, Stem(pattern), Starred(pattern))})
    case Emit(_, _) => d
    case Remove(o) => Desk(d.owner - {o}, set w | w in d.wants && w.obj != o)
  }

  ghost function AllDone(d: Desk, ops: seq<Op>): Desk {
    if ops == [] then d else Done(AllDone(d, ops[..|ops| - 1]), ops[|ops| - 1])
  }

  /** The objects of other clients that listen to the event. */
  ghost function Receivers(d: Desk, cl: nat, id: string): set<nat> {
    set w | w in d.wants && w.obj in d.owner && Matches(w.key, w.partial, id) && d.owner[w.obj] != cl :: w.obj
  }

  /** An object that starts to listen hears, from then on, the events of other clients that its pattern names, and with
      a star at its end those that start so. */
  lemma ListenThenHear(d: Desk, cl: nat, o: nat, pattern: string, from: nat, id: string)
    requires o >= SYSTEM_MAX && o in d.owner && d.owner[o] == cl
    ensures var n := |pattern| - 1;
            var fits := if n >= 0 && pattern[n] == '*' then n <= |id| && id[..n] == pattern[..n] else id == pattern;
            Receivers(Done(d, Listen(cl, o, pattern)), from, id)
            == Receivers(d, from, id) + if fits && from != cl then {o} else {}
  {
    var w := Want(o, Stem(pattern), Starred(pattern));
    var now := Done(d, Listen(cl, o, pattern));
    assert Matches(w.key, w.partial, id) <==>
        if Starred(pattern) then |w.key| <= |id| && id[..|w.key|] == w.key else id == pattern;
    assert w in now.wants && forall x <- now.wants :: x == w || x in d.wants;
  }

  /** An answer to an operation: an event goes exactly to its receivers, each once. */
  ghost predicate Answered(d: Desk, op: Op, sent: seq<nat>) {
    op.Emit? ==> Lists(sent, Receivers(d, op.cl, op.id))
  }

  /** Each event so far has gone to those who listened by then. */
  ghost predicate AllAnswered(d: Desk, ops: seq<Op>, answers: seq<seq<nat>>) {
    |answers| <= |ops| && forall k :: 0 <= k < |answers| ==> Answered(AllDone(d, ops[..k]), ops[k], answers[k])
  }

  lemma AnsweredMore(d: Desk, ops: seq<Op>, answers: seq<seq<nat>>, sent: seq<nat>)
    requires AllAnswered(d, ops, answers) && |answers| < |ops|
    requires Answered(AllDone(d, ops[..|answers|]), ops[|answers|], sent)
    ensures AllAnswered(d, ops, answers + [sent])
    ensures AllDone(d, ops[..|answers| + 1]) == Done(AllDone(d, ops[..|answers|]), ops[|answers|])
  {
    var k := |answers|;
    assert ops[..k + 1][..k] == ops[..k];
  }

  ghost function Wanted(n: Node, src: Source): Want {
    Want(src.obj, if n.key.Text? then n.key.text else "", src.partial)
  }

  ghost function Wants(sources: map<Node, Source>): set<Want> { set n | n in sources :: Wanted(n, sources[n]) }

  lemma WantsMore(sources: map<Node, Source>, n: Node, src: Source)
    requires n !in sources
    ensures Wants(sources[n := src]) == Wants(sources) + {Wanted(n, src)}
  {
    var more := sources[n := src];
    assert n in more && forall m <- sources :: m in more && more[m] == sources[m];
    assert forall w <- Wants(more) :: w in Wants(sources) + {Wanted(n, src)};
  }

  lemma WantsLess(sources: map<Node, Source>, less: map<Node, Source>, o: nat)
    requires Cleared(sources, less, o) && forall n <- less :: less[n].obj != o
    ensures Wants(less) == set w | w in Wants(sources) && w.obj != o
  {
    forall w | w in Wants(sources) && w.obj != o
      ensures w in Wants(less)
    {
      var n :| n in sources && Wanted(n, sources[n]) == w;
      assert n in less && Wanted(n, less[n]) == w;
    }
    forall w | w in Wants(less)
      ensures w in Wants(sources) && w.obj != o
    {
      var n :| n in less && Wanted(n, less[n]) == w;
      assert n in sources && Wanted(n, sources[n]) == w;
    }
  }

  /** less is sources without some patterns of the object. */
  ghost predicate Cleared(sources: map<Node, Source>, less: map<Node, Source>, o: nat) {
    && (forall n <- less :: n in sources && less[n] == sources[n])
    && (forall n <- sources :: sources[n].obj != o ==> n in less)
  }

  /** Those whose patterns are hit are the receivers. */
  lemma TargetsReceive(list: seq<Node>, sources: map<Node, Source>, owner: map<nat, nat>, seen: map<nat, int>, n: int,
      cl: nat, id: string)
    requires Sourced(list, sources, owner, seen, n)
    ensures Targets(list, sources, owner, cl, id) == Receivers(Desk(owner, Wants(sources)), cl, id)
  {
    var got := Receivers(Desk(owner, Wants(sources)), cl, id);
    forall o | o in Targets(list, sources, owner, cl, id)
      ensures o in got
    {
      var x :| x in list && Hit(x, sources, owner, cl, id) && sources[x].obj == o;
      assert Wanted(x, sources[x]) in Wants(sources);
    }
    forall o | o in got
      ensures o in Targets(list, sources, owner, cl, id)
    {
      var w :| w in Wants(sources) && w.obj == o && w.obj in owner && Matches(w.key, w.partial, id)
        && owner[w.obj] != cl;
      var x :| x in sources && Wanted(x, sources[x]) == w;
      assert x in list && Hit(x, sources, owner, cl, id);
    }
  }

  const SYSTEM_MAX := 1024

  datatype Status = Ok | NotFound | PermissionDenied

  class Events {
    const patterns: AvlTree
    var sources: map<Node, Source>
    var owner: map<nat, nat>
    var seen: map<nat, int>
    var eventSeq: int

    constructor ()
      ensures Valid() && patterns.list == [] && eventSeq == 1 && sources == map[] && owner == map[]
      ensures fresh(Repr()) && fresh(patterns.ring) && patterns.leaders == {}
    {
      KeysOrdered();
      var t := New(KeyCmp, true);
      patterns := t;
      sources, owner, seen, eventSeq := map[], map[], map[], 1;
    }

    /** The objects that this consists of. */
    ghost function Repr(): set<object>
      reads this, patterns
    {
      {this} + Parts(patterns)
    }

    ghost predicate Valid()
      reads this, patterns, patterns.leaders, patterns.list, patterns.ring
    {
      (&& Right(patterns) && patterns.comp == KeyCmp && patterns.allowDups
       && Sourced(patterns.list, sources, owner, seen, eventSeq)) == true
    }

    /** The nodes that are left, once the scan has stopped at position i, hit nothing. */
    lemma {:induction false} RestMisses(cl: nat, id: string, i: nat)
      requires Valid() && 0 < i < |patterns.list|
      requires Shared(id, patterns.list[i].key.text) < Shared(id, patterns.list[i - 1].key.text)
      ensures forall k :: i <= k < |patterns.list| ==> !Hit(patterns.list[k], sources, owner, cl, id)
    {
      Inside(patterns);
      FlatSorted(KeyCmp, Walk(patterns.shape));
      forall k | i <= k < |patterns.list|
        ensures !Hit(patterns.list[k], sources, owner, cl, id)
      {
        ScanOver(patterns.list, id, i, k);
      }
    }

    /** One round of the loop in ubusd_send_event. */
    method Visit(cl: nat, id: string, node: Node, matchLen: nat, seen: map<nat, int>, ghost got: set<nat>)
      returns (len: nat, stop: bool, now: bool, seen': map<nat, int>)
      requires node.key.Text? && node in sources && sources[node].obj in owner && sources[node].obj in seen
      requires Marks(seen, eventSeq, got)
      ensures len == Shared(id, node.key.text) && stop == (len < matchLen) && seen'.Keys == seen.Keys
      ensures now == (!stop && Hit(node, sources, owner, cl, id) && sources[node].obj !in got)
      ensures Marks(seen', eventSeq, got + if now then {sources[node].obj} else {})
    {
      var key, full := node.key.text, false;
      len, full := Match(id, key);
      stop, now, seen' := len < matchLen, false, seen;
      SharedAll(id, key);
      if stop {
        return;
      }
      if !full && (!sources[node].partial || len != |key|) {
        return;
      }
      now, seen' := Deliver(cl, sources[node].obj, owner, seen, eventSeq, got);
    }

    /** The entry e of the threaded list is the one at position i. */
    ghost predicate Cursor(e: Entry, i: nat)
      reads patterns, patterns.ring
    {
      && i <= |patterns.list| && (e == patterns.listHead <==> i == |patterns.list|)
      && (i < |patterns.list| ==> e in patterns.ring && e.owner == patterns.list[i])
    }

    method Start() returns (e: Entry)
      requires Valid()
      ensures Cursor(e, 0)
    {
      Inside(patterns);
      patterns.FirstInList();
      e := patterns.listHead.next;
      if patterns.list != [] {
        patterns.Neighbours(0);
      }
    }

    method Next(node: Node, ghost i: nat) returns (e: Entry)
      requires Valid() && i < |patterns.list| && node == patterns.list[i]
      ensures Cursor(e, i + 1)
    {
      Inside(patterns);
      patterns.Neighbours(i);
      e := node.list.next;
      if i + 1 < |patterns.list| {
        patterns.Neighbours(i + 1);
      }
    }

    /** The state of the scan before position i: what has been sent, and to whom. */
    ghost predicate Scanned(cl: nat, id: string, i: nat, sent: seq<nat>, got: set<nat>, seen: map<nat, int>)
      reads this, patterns
    {
      (&& i <= |patterns.list| && Lists(sent, got) && got == Targets(patterns.list[..i], sources, owner, cl, id)
       && Marks(seen, eventSeq, got) && seen.Keys == this.seen.Keys) == true
    }

    /** What the scan has found before position i is all there is. */
    lemma {:induction false} Stop(cl: nat, id: string, i: nat, sent: seq<nat>, got: set<nat>, seen: map<nat, int>)
      requires Valid() && 0 < i < |patterns.list| && Scanned(cl, id, i, sent, got, seen)
      requires Shared(id, patterns.list[i].key.text) < Shared(id, patterns.list[i - 1].key.text)
      ensures got == Targets(patterns.list, sources, owner, cl, id)
    {
      RestMisses(cl, id, i);
      TargetsRest(patterns.list, i, sources, owner, cl, id);
    }

    /** One round of the loop, with what it sends. */
    method Round(cl: nat, id: string, node: Node, matchLen: nat, sent: seq<nat>, seen: map<nat, int>,
        ghost got: set<nat>, ghost i: nat)
      returns (len: nat, stop: bool, sent': seq<nat>, seen': map<nat, int>, ghost got': set<nat>)
      requires Valid() && i < |patterns.list| && node == patterns.list[i] && Scanned(cl, id, i, sent, got, seen)
      ensures len == Shared(id, node.key.text) && stop == (len < matchLen)
      ensures if stop then sent' == sent && got' == got && seen' == seen else Scanned(cl, id, i + 1, sent', got', seen')
    {
      assert node in patterns.list;
      TargetsStep(patterns.list, i, sources, owner, cl, id);
      var now;
      len, stop, now, seen' := Visit(cl, id, node, matchLen, seen, got);
      sent', got' := sent, got;
      if stop {
        seen' := seen;
      } else if now {
        ListsMore(sent, got, sources[node].obj);
        sent', got' := sent + [sources[node].obj], got + {sources[node].obj};
      }
    }

    /** How much the key before position i shares with id. */
    ghost function Before(id: string, i: nat): nat
      requires i <= |patterns.list| && (i > 0 ==> patterns.list[i - 1].key.Text?)
      reads patterns
    {
      if i == 0 then 0 else Shared(id, patterns.list[i - 1].key.text)
    }

    /** One round and the step to the next entry, unless the scan stops. */
    method Advance(cl: nat, id: string, e: Entry, matchLen: nat, sent: seq<nat>, seen: map<nat, int>,
        ghost got: set<nat>, ghost i: nat)
      returns (e': Entry, len: nat, stop: bool, sent': seq<nat>, seen': map<nat, int>, ghost got': set<nat>)
      requires Valid() && Cursor(e, i) && i < |patterns.list| && Scanned(cl, id, i, sent, got, seen)
      requires (i > 0 ==> patterns.list[i - 1].key.Text?) && matchLen == Before(id, i)
      ensures stop ==> Lists(sent', got') && Marks(seen', eventSeq, got') && seen'.Keys == this.seen.Keys
      ensures stop ==> got' == Targets(patterns.list, sources, owner, cl, id)
      ensures !stop ==> Cursor(e', i + 1) && Scanned(cl, id, i + 1, sent', got', seen')
      ensures !stop ==> patterns.list[i].key.Text? && len == Before(id, i + 1)
    {
      var node := e.owner;
      len, stop, sent', seen', got' := Round(cl, id, node, matchLen, sent, seen, got, i);
      e' := e;
      if stop {
        Stop(cl, id, i, sent, got, seen);
      } else {
        e' := Next(node, i);
      }
    }

    /** The loop of ubusd_send_event; the marks are returned. */
    method Scan(cl: nat, id: string) returns (sent: seq<nat>, seen': map<nat, int>)
      requires Valid() && forall q <- seen :: seen[q] < eventSeq
      ensures var got := Targets(patterns.list, sources, owner, cl, id);
              Lists(sent, got) && Marks(seen', eventSeq, got) && seen'.Keys == seen.Keys
    {
      sent, seen' := [], seen;
      ghost var got, i := {}, 0;
      var matchLen, stop := 0, false;
      var e: Entry := Start();
      while e != patterns.listHead
        invariant Cursor(e, i) && Scanned(cl, id, i, sent, got, seen')
        invariant (i > 0 ==> patterns.list[i - 1].key.Text?) && matchLen == Before(id, i)
        decreases |patterns.list| - i
      {
        e, matchLen, stop, sent, seen', got := Advance(cl, id, e, matchLen, sent, seen', got, i);
        if stop {
          return;
        }
        i := i + 1;
      }
      assert patterns.list[..i] == patterns.list;
    }

    /** ubusd_send_event: the objects that get the event are exactly those of other clients with a pattern that
        matches, each once. */
    method SendEvent(cl: nat, id: string) returns (sent: seq<nat>)
      requires Valid()
      modifies this`seen, this`eventSeq
      ensures Valid() && Lists(sent, Targets(patterns.list, sources, owner, cl, id))
    {
      eventSeq := eventSeq + 1;
      sent, seen := Scan(cl, id);
    }

    /** ubusd_alloc_event_pattern: the pattern goes to its place in the order, without its star. */
    method AddPattern(cl: nat, o: nat, pattern: string) returns (status: Status, node: Node?)
      requires Valid()
      modifies this`sources, patterns, patterns.ring, patterns.leaders
      ensures Valid()
      ensures status == if o < SYSTEM_MAX then PermissionDenied
                        else if o !in owner then NotFound
                        else if owner[o] != cl then PermissionDenied
                        else Ok
      ensures status == Ok ==> var partial := pattern != "" && pattern[|pattern| - 1] == '*';
                               && node != null && fresh(node)
                               && node.key == Text(if partial then pattern[..|pattern| - 1] else pattern)
                               && sources == old(sources)[node := Source(o, partial)]
                               && patterns.list == SortedInsert(KeyCmp, old(patterns.list), node)
      ensures status != Ok ==> sources == old(sources) && patterns.list == old(patterns.list)
      ensures fresh(Repr() - old(Repr()))
    {
      node := null;
      if o < SYSTEM_MAX {
        return PermissionDenied, null;
      }
      if o !in owner {
        return NotFound, null;
      }
      if owner[o] != cl {
        return PermissionDenied, null;
      }
      var len, partial := |pattern|, false;
      if len > 0 && pattern[len - 1] == '*' {
        partial, len := true, len - 1;
      }
      node := Hang(o, pattern[..len], partial);
      status := Ok;
    }

    /** Files a node under an object. */
    method File(node: Node, o: nat, partial: bool)
      requires Valid() && o in owner && node.key.Text? && node !in patterns.list && node.list.owner == node
      modifies this`sources, patterns, patterns.ring, patterns.leaders, node, node.list
      ensures Valid() && sources == old(sources)[node := Source(o, partial)]
      ensures patterns.list == SortedInsert(KeyCmp, old(patterns.list), node)
      ensures Repr() <= old(Repr()) + {node, node.list}
    {
      ghost var was, before := patterns.list, sources;
      var r := Insert(patterns, node);
      sources := sources[node := Source(o, partial)];
      SourcedMore(was, before, owner, seen, eventSeq, node, Source(o, partial));
    }

    method Hang(o: nat, key: string, partial: bool) returns (node: Node)
      requires Valid() && o in owner
      modifies this`sources, patterns, patterns.ring, patterns.leaders
      ensures Valid() && fresh(node) && node.key == Text(key) && sources == old(sources)[node := Source(o, partial)]
      ensures patterns.list == SortedInsert(KeyCmp, old(patterns.list), node) && fresh(Repr() - old(Repr()))
    {
      node := new Node(Text(key));
      File(node, o, partial);
    }

    /** An object is created; calloc leaves its mark at zero. */
    method AddObject(o: nat, cl: nat)
      requires Valid() && o !in owner
      modifies this`owner, this`seen
      ensures Valid() && owner == old(owner)[o := cl]
    {
      owner, seen := owner[o := cl], seen[o := 0];
    }

    /** ubusd_delete_event_source: the pattern goes, and no other. */
    method DeleteSource(node: Node)
      requires Valid() && node in sources
      modifies this`sources, patterns, patterns.ring, patterns.leaders, patterns.list
      ensures Valid() && patterns.list == Without(old(patterns.list), node) && sources == old(sources) - {node}
      ensures Repr() <= old(Repr())
    {
      ghost var was, before := patterns.list, sources;
      ListDistinct(patterns);
      Delete(patterns, node);
      sources := sources - {node};
      SourcedLess(was, before, owner, seen, eventSeq, node);
    }

    /** An object goes, after ubusd_event_cleanup_object has deleted all its patterns. */
    method DropObject(o: nat)
      requires Valid() && forall n <- sources :: sources[n].obj != o
      modifies this`owner, this`seen
      ensures Valid() && owner == old(owner) - {o}
    {
      owner, seen := owner - {o}, seen - {o};
    }

    /** ubusd_event_cleanup_object: exactly the patterns of the object go. */
    method CleanupObject(o: nat)
      requires Valid()
      modifies Repr()
      ensures Valid() && Cleared(old(sources), sources, o) && (forall n <- sources :: sources[n].obj != o)
      ensures owner == old(owner) && Repr() <= old(Repr())
    {
      ghost var parts, was := Repr(), sources;
      while exists n :: n in sources && sources[n].obj == o
        invariant Valid() && Cleared(was, sources, o) && owner == old(owner) && Repr() <= parts
        decreases |sources|
      {
        var n :| n in sources && sources[n].obj == o;
        DeleteSource(n);
      }
    }

    ghost function View(): Desk
      reads this
    {
      Desk(owner, Wants(sources))
    }

    method Register(cl: nat, o: nat, pattern: string)
      requires Valid()
      modifies this`sources, patterns, patterns.ring, patterns.leaders
      ensures Valid() && fresh(Repr() - old(Repr())) && View() == Done(old(View()), Listen(cl, o, pattern))
    {
      var status, node := AddPattern(cl, o, pattern);
      if status == Ok {
        WantsMore(old(sources), node, sources[node]);
      }
    }

    method Send(cl: nat, id: string) returns (sent: seq<nat>)
      requires Valid()
      modifies this`seen, this`eventSeq
      ensures Valid() && Lists(sent, Receivers(View(), cl, id))
    {
      sent := SendEvent(cl, id);
      TargetsReceive(patterns.list, sources, owner, seen, eventSeq, cl, id);
    }

    method Discard(o: nat)
      requires Valid()
      modifies Repr()
      ensures Valid() && Repr() <= old(Repr()) && View() == Done(old(View()), Remove(o))
    {
      ghost var was := sources;
      CleanupObject(o);
      WantsLess(was, sources, o);
      DropObject(o);
    }

    method Step(op: Op) returns (sent: seq<nat>)
      requires Valid()
      modifies Repr()
      ensures Valid() && fresh(Repr() - old(Repr())) && View() == Done(old(View()), op)
      ensures Answered(old(View()), op, sent)
    {
      sent := [];
      match op
      case Create(o, cl) =>
        if o !in owner {
          AddObject(o, cl);
        }
      case Listen(cl, o, pattern) => Register(cl, o, pattern);
      case Emit(cl, id) => sent := Send(cl, id);
      case Remove(o) => Discard(o);
    }

    /** Whatever clients do in whatever order, each event goes exactly to the objects of other clients that listen to
        it by then, each once. */
    method Run(ops: seq<Op>) returns (answers: seq<seq<nat>>)
      requires Valid()
      modifies Repr()
      ensures Valid() && fresh(Repr() - old(Repr())) && View() == AllDone(old(View()), ops)
      ensures |answers| == |ops| && AllAnswered(old(View()), ops, answers)
    {
      answers := [];
      ghost var d := View();
      for k := 0 to |ops|
        invariant Valid() && fresh(Repr() - old(Repr())) && View() == AllDone(d, ops[..k])
        invariant |answers| == k && AllAnswered(d, ops, answers)
      {
        answers := OneMore(ops, k, answers, d);
      }
      assert ops[..|ops|] == ops;
    }

    method OneMore(ops: seq<Op>, k: nat, answers: seq<seq<nat>>, ghost d: Desk) returns (more: seq<seq<nat>>)
      requires Valid() && k < |ops| && View() == AllDone(d, ops[..k]) && |answers| == k && AllAnswered(d, ops, answers)
      modifies Repr()
      ensures Valid() && fresh(Repr() - old(Repr())) && View() == AllDone(d, ops[..k + 1])
      ensures |more| == k + 1 && AllAnswered(d, ops, more)
    {
      var sent := Step(ops[k]);
      AnsweredMore(d, ops, answers, sent);
      more := answers + [sent];
    }
  }
}
