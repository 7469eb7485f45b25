/** The order of the nodes in the threaded list, and what linear scans of it find. */
module AvlOrder {
  import opened Common
  import opened AvlModel

  ghost predicate Alike(comp: Comparator, r: Run) {
    forall d <- r.dups :: comp(r.head.key, d.key) == 0
  }

  /** Leaders are strictly increasing and duplicates are equal to their leader. */
  ghost predicate Ordered(comp: Comparator, w: seq<Run>) {
    && (forall i, j {:trigger Two(i, j)} :: Two(i, j) && 0 <= i < j < |w| ==> comp(w[i].head.key, w[j].head.key) < 0)
    && (forall r <- w :: Alike(comp, r))
  }

  ghost predicate AllBelow(comp: Comparator, w: seq<Run>, k: Key) {
    forall r <- w :: comp(k, r.head.key) > 0
  }

  ghost predicate AllAbove(comp: Comparator, k: Key, w: seq<Run>) {
    forall r <- w :: comp(k, r.head.key) < 0
  }

  lemma OrderedSplit(comp: Comparator, a: seq<Run>, r: Run, b: seq<Run>)
    requires Orders(comp) && Ordered(comp, a + [r] + b)
    ensures Ordered(comp, a) && Ordered(comp, b) && Alike(comp, r)
    ensures AllBelow(comp, a, r.head.key) && AllAbove(comp, r.head.key, b)
  {
    var w, k := a + [r] + b, |a|;
    OrderedPart(comp, [], a, [r] + b);
    assert [] + a + ([r] + b) == w;
    OrderedPart(comp, a + [r], b, []);
    assert a + [r] + b + [] == w;
    assert w[k] == r;
    forall i | 0 <= i < |a|
      ensures comp(a[i].head.key, r.head.key) < 0
    {
      assert Two(i, k) && w[i] == a[i];
    }
    forall i | 0 <= i < |b|
      ensures comp(r.head.key, b[i].head.key) < 0
    {
      assert Two(k, k + 1 + i) && w[k + 1 + i] == b[i];
    }
  }

  lemma OrderedPart(comp: Comparator, a: seq<Run>, b: seq<Run>, c: seq<Run>)
    requires Ordered(comp, a + b + c)
    ensures Ordered(comp, b)
  {
    var w := a + b + c;
    assert forall i :: 0 <= i < |b| ==> b[i] == w[|a| + i];
    forall i, j {:trigger Two(i, j)} | Two(i, j) && 0 <= i < j < |b|
      ensures comp(b[i].head.key, b[j].head.key) < 0
    {
      assert Two(|a| + i, |a| + j);
    }
  }

  lemma OrderedJoin(comp: Comparator, a: seq<Run>, r: Run, b: seq<Run>)
    requires Orders(comp) && Ordered(comp, a) && Ordered(comp, b) && Alike(comp, r)
    requires AllBelow(comp, a, r.head.key) && AllAbove(comp, r.head.key, b)
    ensures Ordered(comp, a + [r] + b)
  {
    var w, k := a + [r] + b, |a|;
    forall i, j {:trigger Two(i, j)} | Two(i, j) && 0 <= i < j < |w|
      ensures comp(w[i].head.key, w[j].head.key) < 0
    {
      if j < k {
        assert Two(i, j) && w[i] == a[i] && w[j] == a[j];
      } else if i > k {
        assert Two(i - k - 1, j - k - 1) && w[i] == b[i - k - 1] && w[j] == b[j - k - 1];
      } else if i < k < j {
        assert w[i] in a && w[j] in b;
        Follows(comp, w[i].head.key, r.head.key, w[j].head.key);
      } else if i < k {
        assert w[i] in a;
      } else {
        assert w[j] in b;
      }
    }
  }

  /** The nodes of the runs in list order. */
  ghost function Flat(w: seq<Run>): seq<Node> {
    if w == [] then [] else [w[0].head] + w[0].dups + Flat(w[1..])
  }

  lemma {:induction false} FlatSum(v: seq<Run>, w: seq<Run>)
    ensures Flat(v + w) == Flat(v) + Flat(w)
  {
    if v == [] {
      assert v + w == w;
    } else {
      FlatSum(v[1..], w);
      assert (v + w)[1..] == v[1..] + w && (v + w)[0] == v[0];
      Associates([v[0].head] + v[0].dups, Flat(v[1..]), Flat(w));
    }
  }

  /** The list around one run. */
  lemma {:induction false} FlatSplit(a: seq<Run>, r: Run, b: seq<Run>)
    ensures Flat(a + [r] + b) == Flat(a) + ([r.head] + r.dups) + Flat(b)
  {
    FlatSum(a + [r], b);
    FlatSum(a, [r]);
    assert [r][1..] == [];
  }

  lemma {:induction false} FlatHas(w: seq<Run>)
    ensures forall r <- w :: r.head in Flat(w) && forall d <- r.dups :: d in Flat(w)
  {
    if w != [] {
      FlatHas(w[1..]);
      assert w == [w[0]] + w[1..];
    }
  }

  /** Only one run has a leader that is nowhere else. */
  lemma RunListed(a: seq<Run>, r: Run, b: seq<Run>, q: Run)
    requires q in a + [r] + b && (q.head == r.head ==> q.head !in HeadsOf(a + b))
    ensures q.head == r.head ==> q == r
  {
    assert q in a + b ==> q.head in HeadsOf(a + b);
  }

  /** A tree of one node. */
  lemma Lone(comp: Comparator, x: Node)
    ensures var t := Fork(Leaf, x, [], 0, Leaf);
            && Heads(t) == {x} && Simple(t) && Balanced(t)
            && Walk(t) == [Run(x, [])] && Flat(Walk(t)) == [x] && Ordered(comp, Walk(t))
  {
    assert Flat([Run(x, [])]) == [x];
  }

  /** Every node in the list is in some run. */
  lemma {:induction false} FlatFrom(w: seq<Run>, x: Node) returns (r: Run)
    requires x in Flat(w)
    ensures r in w && (x == r.head || x in r.dups)
  {
    if x == w[0].head || x in w[0].dups {
      r := w[0];
    } else {
      r := FlatFrom(w[1..], x);
    }
  }

  /** Where the nodes of one run are in the list. */
  lemma {:induction false} FlatAt(a: seq<Run>, r: Run, b: seq<Run>)
    ensures var s, k, n := Flat(a + [r] + b), |Flat(a)|, |r.dups|;
            && k + n < |s| && s[k] == r.head && (forall i :: k < i <= k + n ==> s[i] == r.dups[i - k - 1])
            && (if b == [] then |s| == k + n + 1 else k + n + 1 < |s| && s[k + n + 1] == b[0].head)
  {
    FlatSplit(a, r, b);
    var h := [r.head] + r.dups;
    assert forall i :: 0 < i < |h| ==> h[i] == r.dups[i - 1];
  }

  lemma DistinctApart(p: seq<Node>, h: Node, ds: seq<Node>, q: seq<Node>)
    requires Distinct(p + ([h] + ds) + q)
    ensures forall d <- ds :: d != h && d !in p && d !in q
  {
    var s, k := p + ([h] + ds) + q, |p|;
    assert s[k] == h;
    assert forall i :: 0 <= i < |p| ==> s[i] == p[i];
    assert forall i :: 0 <= i < |ds| ==> s[k + 1 + i] == ds[i];
    assert forall i :: 0 <= i < |q| ==> s[k + 1 + |ds| + i] == q[i];
  }

  /** When all nodes in the list differ, duplicates are not leaders. */
  lemma {:induction false} DupsNoHeads(a: seq<Run>, r: Run, b: seq<Run>)
    requires Distinct(Flat(a + [r] + b))
    ensures forall d <- r.dups :: d !in HeadsOf(a + [r] + b)
    ensures b != [] ==> b[0].head in HeadsOf(a + [r] + b)
  {
    FlatSplit(a, r, b);
    DistinctApart(Flat(a), r.head, r.dups, Flat(b));
    FlatHas(a);
    FlatHas(b);
    HeadsOfSum(a + [r], b);
    HeadsOfSum(a, [r]);
    assert HeadsOf(a) <= set x <- Flat(a);
    assert HeadsOf(b) <= set x <- Flat(b);
    assert HeadsOf([r]) == {r.head};
  }

  ghost predicate NodesBelow(comp: Comparator, s: seq<Node>, k: Key) {
    forall x <- s :: comp(k, x.key) > 0
  }

  ghost predicate NodesAbove(comp: Comparator, k: Key, s: seq<Node>) {
    forall x <- s :: comp(k, x.key) < 0
  }

  lemma {:induction false} FlatBelow(comp: Comparator, w: seq<Run>, k: Key)
    requires Orders(comp) && Ordered(comp, w) && AllBelow(comp, w, k)
    ensures NodesBelow(comp, Flat(w), k)
  {
    if w != [] {
      assert w[0] in w && forall r <- w[1..] :: r in w;
      assert [w[0]] + w[1..] + [] == w;
      OrderedPart(comp, [w[0]], w[1..], []);
      FlatBelow(comp, w[1..], k);
      forall d | d in w[0].dups
        ensures comp(k, d.key) > 0
      {
        Follows(comp, d.key, w[0].head.key, k);
      }
    }
  }

  lemma {:induction false} FlatAbove(comp: Comparator, k: Key, w: seq<Run>)
    requires Orders(comp) && Ordered(comp, w) && AllAbove(comp, k, w)
    ensures NodesAbove(comp, k, Flat(w))
  {
    if w != [] {
      assert w[0] in w && forall r <- w[1..] :: r in w;
      assert [w[0]] + w[1..] + [] == w;
      OrderedPart(comp, [w[0]], w[1..], []);
      FlatAbove(comp, k, w[1..]);
      forall d | d in w[0].dups
        ensures comp(k, d.key) < 0
      {
        Follows(comp, k, w[0].head.key, d.key);
      }
    }
  }

  /** Inserting after the last node that is not greater: what the list does on insertion. */
  ghost function SortedInsert(comp: Comparator, s: seq<Node>, x: Node): seq<Node> {
    if s == [] || comp(x.key, s[|s| - 1].key) >= 0 then s + [x]
    else SortedInsert(comp, s[..|s| - 1], x) + [s[|s| - 1]]
  }

  /** A list with one node more. */
  lemma {:induction false} InsertAdds(comp: Comparator, s: seq<Node>, x: Node, n: Node)
    ensures n in SortedInsert(comp, s, x) <==> n in s || n == x
  {
    if s != [] && comp(x.key, s[|s| - 1].key) < 0 {
      InsertAdds(comp, s[..|s| - 1], x, n);
      assert s == s[..|s| - 1] + [s[|s| - 1]];
    }
  }

  lemma {:induction false} InsertAfter(comp: Comparator, a: seq<Node>, b: seq<Node>, x: Node)
    requires a == [] || comp(x.key, a[|a| - 1].key) >= 0
    requires NodesAbove(comp, x.key, b)
    ensures SortedInsert(comp, a + b, x) == a + [x] + b
    decreases |b|
  {
    if b == [] {
      assert a + b == a;
    } else {
      var b' := b[..|b| - 1];
      assert (a + b)[..|a + b| - 1] == a + b';
      InsertAfter(comp, a, b', x);
      assert b == b' + [b[|b| - 1]];
    }
  }

  /** The first node with this key. */
  ghost function FirstEqual(comp: Comparator, k: Key, s: seq<Node>): Node? {
    if s == [] then null else if comp(k, s[0].key) == 0 then s[0] else FirstEqual(comp, k, s[1..])
  }

  /** The last node whose key is at most k. */
  ghost function LastAtMost(comp: Comparator, k: Key, s: seq<Node>): Node? {
    if s == [] then null else if comp(k, s[|s| - 1].key) >= 0 then s[|s| - 1] else LastAtMost(comp, k, s[..|s| - 1])
  }

  /** The first node whose key is at least k. */
  ghost function FirstAtLeast(comp: Comparator, k: Key, s: seq<Node>): Node? {
    if s == [] then null else if comp(k, s[0].key) <= 0 then s[0] else FirstAtLeast(comp, k, s[1..])
  }

  /** The path from the root to the gap goes where a search for k goes. */
  ghost predicate Sought(comp: Comparator, k: Key, c: Context) {
    match c
    case Top => true
    case InLeft(up, x, _, _, _) => comp(k, x.key) < 0 && Sought(comp, k, up)
    case InRight(up, _, x, _, _) => comp(k, x.key) > 0 && Sought(comp, k, up)
  }

  lemma AboveAbove(comp: Comparator, k: Key, m: Key, w: seq<Run>)
    requires Orders(comp) && comp(k, m) <= 0 && AllAbove(comp, m, w)
    ensures AllAbove(comp, k, w)
  {
    forall r | r in w
      ensures comp(k, r.head.key) < 0
    {
      Follows(comp, k, m, r.head.key);
    }
  }

  lemma BelowBelow(comp: Comparator, w: seq<Run>, m: Key, k: Key)
    requires Orders(comp) && comp(k, m) >= 0 && AllBelow(comp, w, m)
    ensures AllBelow(comp, w, k)
  {
    forall r | r in w
      ensures comp(k, r.head.key) > 0
    {
      Follows(comp, r.head.key, m, k);
    }
  }

  /** A search leaves smaller runs before the gap and greater ones after it. */
  lemma {:induction false} SoughtSplits(comp: Comparator, k: Key, c: Context, t: Tree)
    requires Orders(comp) && Ordered(comp, Walk(Plug(c, t))) && Sought(comp, k, c)
    ensures AllBelow(comp, Before(c), k) && AllAbove(comp, k, After(c)) && Ordered(comp, Walk(t))
    decreases c
  {
    PlugWalk(c, t);
    OrderedPart(comp, Before(c), Walk(t), After(c));
    match c
    case Top =>
    case InLeft(up, x, ds, b, r) =>
      SoughtSplits(comp, k, up, Joined(c, t, 0));
      OrderedSplit(comp, Walk(t), Run(x, ds), Walk(r));
      AboveAbove(comp, k, x.key, Walk(r));
    case InRight(up, l, x, ds, b) =>
      SoughtSplits(comp, k, up, Joined(c, t, 0));
      OrderedSplit(comp, Walk(l), Run(x, ds), Walk(t));
      BelowBelow(comp, Walk(l), x.key, k);
  }

  /** The search stopped at t: smaller runs before its node and greater ones after it. */
  lemma {:induction false} StopSplits(comp: Comparator, k: Key, c: Context, t: Tree)
    requires Orders(comp) && Ordered(comp, Walk(Plug(c, t))) && Sought(comp, k, c) && t.Fork?
    requires comp(k, t.head.key) < 0 ==> t.left.Leaf?
    requires comp(k, t.head.key) > 0 ==> t.right.Leaf?
    ensures AllBelow(comp, Prior(c, t), k) && AllAbove(comp, k, Later(c, t))
  {
    SoughtSplits(comp, k, c, t);
    OrderedSplit(comp, Walk(t.left), Run(t.head, t.dups), Walk(t.right));
    if comp(k, t.head.key) >= 0 {
      BelowBelow(comp, Walk(t.left), t.head.key, k);
    }
    if comp(k, t.head.key) <= 0 {
      AboveAbove(comp, k, t.head.key, Walk(t.right));
    }
  }

  /** A search for k stops at the run r, with smaller runs a before and greater runs b after it. */
  ghost predicate Stopped(comp: Comparator, k: Key, a: seq<Run>, r: Run, b: seq<Run>) {
    Orders(comp) && Ordered(comp, a + [r] + b) && AllBelow(comp, a, k) && AllAbove(comp, k, b)
  }

  /** In the list, all nodes of the run compare to k as its leader does. */
  lemma {:induction false} StoppedSigns(comp: Comparator, k: Key, a: seq<Run>, r: Run, b: seq<Run>)
    requires Stopped(comp, k, a, r, b)
    ensures NodesBelow(comp, Flat(a), k) && NodesAbove(comp, k, Flat(b))
    ensures var d := comp(k, r.head.key);
            forall x <- [r.head] + r.dups ::
              (d < 0 ==> comp(k, x.key) < 0) && (d > 0 ==> comp(k, x.key) > 0) && (d == 0 ==> comp(k, x.key) == 0)
  {
    OrderedSplit(comp, a, r, b);
    FlatBelow(comp, a, k);
    FlatAbove(comp, k, b);
    forall x | x in r.dups
      ensures var d := comp(k, r.head.key);
              (d < 0 ==> comp(k, x.key) < 0) && (d > 0 ==> comp(k, x.key) > 0) && (d == 0 ==> comp(k, x.key) == 0)
    {
      assert Chain(k, r.head.key, x.key) && Chain(x.key, r.head.key, k);
      if comp(k, r.head.key) <= 0 {
        Follows(comp, k, r.head.key, x.key);
      }
      if comp(k, r.head.key) >= 0 {
        Follows(comp, x.key, r.head.key, k);
      }
    }
  }

  /** The runs after the leader x has been put next to r. */
  ghost function WithLeader(a: seq<Run>, r: Run, b: seq<Run>, x: Node, onLeft: bool): seq<Run> {
    a + (if onLeft then [Run(x, [])] + [r] else [r] + [Run(x, [])]) + b
  }

  lemma WithLeaderRuns(a: seq<Run>, r: Run, b: seq<Run>, x: Node, onLeft: bool)
    ensures var w := WithLeader(a, r, b, x, onLeft);
            && HeadsOf(w) == HeadsOf(a + [r] + b) + {x}
            && forall q <- w :: q == Run(x, []) || q in a + [r] + b
  {
    var w, n := WithLeader(a, r, b, x, onLeft), Run(x, []);
    assert n in w && r in w && (forall q <- a :: q in w) && (forall q <- b :: q in w);
    assert forall q <- a + [r] + b :: q in w;
  }

  lemma {:induction false} LeaderInserted(comp: Comparator, a: seq<Run>, r: Run, b: seq<Run>, x: Node)
    requires Stopped(comp, x.key, a, r, b) && comp(x.key, r.head.key) != 0
    ensures Ordered(comp, WithLeader(a, r, b, x, comp(x.key, r.head.key) < 0))
  {
    OrderedSplit(comp, a, r, b);
    var n := Run(x, []);
    if comp(x.key, r.head.key) < 0 {
      OrderedJoin(comp, [], r, b);
      assert [] + [r] + b == [r] + b;
      OrderedJoin(comp, a, n, [r] + b);
      assert a + [n] + ([r] + b) == WithLeader(a, r, b, x, true);
    } else {
      OrderedJoin(comp, a, r, []);
      assert a + [r] + [] == a + [r];
      OrderedJoin(comp, a + [r], n, b);
      assert a + [r] + [n] + b == WithLeader(a, r, b, x, false);
    }
  }

  /** t is the sorted insertion of x into s, and has x at position k. */
  ghost predicate InsertedAt(comp: Comparator, s: seq<Node>, x: Node, k: nat, t: seq<Node>) {
    k <= |s| && t == s[..k] + [x] + s[k..] && t == SortedInsert(comp, s, x)
  }

  lemma {:induction false} Inserting(comp: Comparator, p: seq<Node>, q: seq<Node>, x: Node)
    requires p == [] || comp(x.key, p[|p| - 1].key) >= 0
    requires NodesAbove(comp, x.key, q)
    ensures InsertedAt(comp, p + q, x, |p|, p + [x] + q)
  {
    InsertAfter(comp, p, q, x);
    assert (p + q)[..|p|] == p && (p + q)[|p|..] == q;
  }

  /** The list with the new leader is the sorted insertion, at the place where it is linked. */
  lemma {:induction false} LeaderListed(comp: Comparator, a: seq<Run>, r: Run, b: seq<Run>, x: Node)
    requires Stopped(comp, x.key, a, r, b) && comp(x.key, r.head.key) != 0
    ensures var onLeft := comp(x.key, r.head.key) < 0;
            InsertedAt(comp, Flat(a + [r] + b), x, if onLeft then |Flat(a)| else |Flat(a)| + 1 + |r.dups|,
                       Flat(WithLeader(a, r, b, x, onLeft)))
  {
    var n, h := Run(x, []), [r.head] + r.dups;
    FlatSplit(a, r, b);
    StoppedSigns(comp, x.key, a, r, b);
    if comp(x.key, r.head.key) < 0 {
      LeftFlat(a, r, b, x);
      Inserting(comp, Flat(a), h + Flat(b), x);
    } else {
      RightFlat(a, r, b, x);
      assert h[|h| - 1] in h;
      Inserting(comp, Flat(a) + h, Flat(b), x);
    }
  }

  lemma {:induction false} LeftFlat(a: seq<Run>, r: Run, b: seq<Run>, x: Node)
    ensures Flat(WithLeader(a, r, b, x, true)) == Flat(a) + [x] + ([r.head] + r.dups + Flat(b))
    ensures Flat(a + [r] + b) == Flat(a) + ([r.head] + r.dups + Flat(b))
  {
    var n := Run(x, []);
    Reassociate(a, [n], [r], b);
    FlatSplit(a, n, [r] + b);
    FlatSum([r], b);
    assert Flat([r]) == [r.head] + r.dups;
    assert [n.head] + n.dups == [x];
    FlatSplit(a, r, b);
    Reassociate(Flat(a), [], [r.head] + r.dups, Flat(b));
  }

  lemma Reassociate<T>(a: seq<T>, b: seq<T>, c: seq<T>, d: seq<T>)
    ensures a + (b + c) + d == a + b + (c + d)
    ensures a + c + d == a + (c + d)
    ensures a + (c + b) + d == (a + c) + b + d
  {
  }

  lemma {:induction false} RightFlat(a: seq<Run>, r: Run, b: seq<Run>, x: Node)
    ensures Flat(WithLeader(a, r, b, x, false)) == (Flat(a) + ([r.head] + r.dups)) + [x] + Flat(b)
  {
    var n := Run(x, []);
    Reassociate(a, [n], [r], b);
    FlatSplit(a + [r], n, b);
    FlatSum(a, [r]);
    assert Flat([r]) == [r.head] + r.dups;
    assert [n.head] + n.dups == [x];
  }

  lemma {:induction false} DupInserted(comp: Comparator, a: seq<Run>, r: Run, b: seq<Run>, x: Node)
    requires Stopped(comp, x.key, a, r, b) && comp(x.key, r.head.key) == 0
    ensures var w := a + [Run(r.head, r.dups + [x])] + b;
            Ordered(comp, w) && InsertedAt(comp, Flat(a + [r] + b), x, |Flat(a)| + 1 + |r.dups|, Flat(w))
  {
    var n, h := Run(r.head, r.dups + [x]), [r.head] + r.dups;
    OrderedSplit(comp, a, r, b);
    OrderedJoin(comp, a, n, b);
    StoppedSigns(comp, x.key, a, r, b);
    FlatSplit(a, r, b);
    FlatSplit(a, n, b);
    assert [r.head] + (r.dups + [x]) == h + [x];
    Reassociate(Flat(a), [x], h, Flat(b));
    assert h[|h| - 1] in h;
    Inserting(comp, Flat(a) + h, Flat(b), x);
  }

  lemma {:induction false} FirstEqualSkips(comp: Comparator, k: Key, a: seq<Node>, b: seq<Node>)
    requires forall x <- a :: comp(k, x.key) != 0
    ensures FirstEqual(comp, k, a + b) == FirstEqual(comp, k, b)
  {
    if a == [] {
      assert a + b == b;
    } else {
      assert a[0] in a && (a + b)[1..] == a[1..] + b;
      FirstEqualSkips(comp, k, a[1..], b);
    }
  }

  /** The leader where a search stops is the first node with that key, if there is any. */
  lemma {:induction false} StoppedFinds(comp: Comparator, k: Key, a: seq<Run>, r: Run, b: seq<Run>)
    requires Stopped(comp, k, a, r, b)
    ensures FirstEqual(comp, k, Flat(a + [r] + b)) == if comp(k, r.head.key) == 0 then r.head else null
  {
    var h := [r.head] + r.dups;
    FlatSplit(a, r, b);
    StoppedSigns(comp, k, a, r, b);
    assert Flat(a) + h + Flat(b) == Flat(a) + (h + Flat(b));
    FirstEqualSkips(comp, k, Flat(a), h + Flat(b));
    if comp(k, r.head.key) != 0 {
      FirstEqualSkips(comp, k, h + Flat(b), []);
      assert h + Flat(b) + [] == h + Flat(b);
    }
  }

  /** The runs w say how the list s is to be after the insertion of x at position k. */
  ghost predicate Planned(comp: Comparator, allowDups: bool, s: seq<Node>, x: Node, k: nat, w: seq<Run>) {
    Ordered(comp, w) && InsertedAt(comp, s, x, k, Flat(w)) && (allowDups || forall r <- w :: r.dups == [])
  }

  lemma {:induction false} LeaderPlanned(comp: Comparator, allowDups: bool, a: seq<Run>, r: Run, b: seq<Run>, x: Node)
    requires Stopped(comp, x.key, a, r, b) && comp(x.key, r.head.key) != 0
    requires allowDups || forall q <- a + [r] + b :: q.dups == []
    ensures var onLeft := comp(x.key, r.head.key) < 0;
            Planned(comp, allowDups, Flat(a + [r] + b), x,
                    if onLeft then |Flat(a)| else |Flat(a)| + 1 + |r.dups|, WithLeader(a, r, b, x, onLeft))
  {
    LeaderInserted(comp, a, r, b, x);
    LeaderListed(comp, a, r, b, x);
    WithLeaderRuns(a, r, b, x, comp(x.key, r.head.key) < 0);
  }

  /** The walk once x has become a leaf below the node in focus, where a search for x stopped. */
  lemma {:induction false} SproutPlanned(comp: Comparator, allowDups: bool, c: Context, t: Tree, x: Node)
    requires Orders(comp) && Ordered(comp, Walk(Plug(c, t))) && t.Fork? && Sought(comp, x.key, c)
    requires comp(x.key, t.head.key) != 0 && (if comp(x.key, t.head.key) < 0 then t.left.Leaf? else t.right.Leaf?)
    requires allowDups || forall q <- Walk(Plug(c, t)) :: q.dups == []
    ensures Planned(comp, allowDups, Flat(Walk(Plug(c, t))), x, SproutAt(comp, c, t, x),
            Walk(Plug(c, Sprouted(t, x, comp(x.key, t.head.key) < 0))))
    ensures HeadsOf(Walk(Plug(c, Sprouted(t, x, comp(x.key, t.head.key) < 0)))) == HeadsOf(Walk(Plug(c, t))) + {x}
  {
    var a, r, b, onLeft := Prior(c, t), Run(t.head, t.dups), Later(c, t), comp(x.key, t.head.key) < 0;
    SproutedWalk(c, t, x, onLeft);
    StopSplits(comp, x.key, c, t);
    SplitAt(c, t);
    WithLeaderRuns(a, r, b, x, onLeft);
    LeaderPlanned(comp, allowDups, a, r, b, x);
  }

  /** The list position of a new leaf below the node in focus. */
  ghost function SproutAt(comp: Comparator, c: Context, t: Tree, x: Node): nat
    requires t.Fork?
  {
    if comp(x.key, t.head.key) < 0 then |Flat(Prior(c, t))| else |Flat(Prior(c, t))| + 1 + |t.dups|
  }

  ghost predicate Sorted(comp: Comparator, s: seq<Node>) {
    forall i, j {:trigger Two(i, j)} :: Two(i, j) && 0 <= i < j < |s| ==> comp(s[i].key, s[j].key) <= 0
  }

  lemma SortedSum(comp: Comparator, a: seq<Node>, b: seq<Node>)
    requires Sorted(comp, a) && Sorted(comp, b) && forall x <- a, y <- b :: comp(x.key, y.key) <= 0
    ensures Sorted(comp, a + b)
  {
    var s := a + b;
    forall i, j {:trigger Two(i, j)} | Two(i, j) && 0 <= i < j < |s|
      ensures comp(s[i].key, s[j].key) <= 0
    {
      if i < |a| <= j {
        assert s[i] in a && s[j] in b;
      } else if i >= |a| {
        assert Two(i - |a|, j - |a|);
      }
    }
  }

  lemma AlikeSorted(comp: Comparator, r: Run)
    requires Orders(comp) && Alike(comp, r)
    ensures Sorted(comp, [r.head] + r.dups)
    ensures forall x <- [r.head] + r.dups :: comp(x.key, r.head.key) == 0
  {
    var h := [r.head] + r.dups;
    assert Chain(r.head.key, r.head.key, r.head.key);
    forall i, j {:trigger Two(i, j)} | Two(i, j) && 0 <= i < j < |h|
      ensures comp(h[i].key, h[j].key) <= 0
    {
      assert h[i] in h && h[j] in h;
      Follows(comp, h[i].key, r.head.key, h[j].key);
    }
  }

  /** The list is sorted. */
  lemma {:induction false} FlatSorted(comp: Comparator, w: seq<Run>)
    requires Orders(comp) && Ordered(comp, w)
    ensures Sorted(comp, Flat(w))
  {
    if w != [] {
      var r, h := w[0], [w[0].head] + w[0].dups;
      assert [] + [r] + w[1..] == w;
      OrderedSplit(comp, [], r, w[1..]);
      FlatSorted(comp, w[1..]);
      FlatAbove(comp, r.head.key, w[1..]);
      AlikeSorted(comp, r);
      forall x, y | x in h && y in Flat(w[1..])
        ensures comp(x.key, y.key) <= 0
      {
        Follows(comp, x.key, r.head.key, y.key);
      }
      SortedSum(comp, h, Flat(w[1..]));
    }
  }

  lemma {:induction false} LastAtMostAt(comp: Comparator, k: Key, s: seq<Node>, i: int)
    requires Orders(comp) && Sorted(comp, s) && -1 <= i < |s|
    requires i >= 0 ==> comp(k, s[i].key) >= 0
    requires i + 1 < |s| ==> comp(k, s[i + 1].key) < 0
    ensures LastAtMost(comp, k, s) == if i >= 0 then s[i] else null
  {
    if i + 1 < |s| {
      var n := |s| - 1;
      assert Two(i + 1, n);
      if i + 1 < n {
        Follows(comp, k, s[i + 1].key, s[n].key);
      }
      forall a, b {:trigger Two(a, b)} | Two(a, b) && 0 <= a < b < n
        ensures comp(s[..n][a].key, s[..n][b].key) <= 0
      {
      }
      LastAtMostAt(comp, k, s[..n], i);
    }
  }

  lemma {:induction false} FirstAtLeastAt(comp: Comparator, k: Key, s: seq<Node>, i: int)
    requires Orders(comp) && Sorted(comp, s) && 0 <= i <= |s|
    requires i < |s| ==> comp(k, s[i].key) <= 0
    requires i > 0 ==> comp(k, s[i - 1].key) > 0
    ensures FirstAtLeast(comp, k, s) == if i < |s| then s[i] else null
  {
    if i > 0 {
      assert Two(0, i - 1);
      if i > 1 {
        Follows(comp, s[0].key, s[i - 1].key, k);
      }
      forall a, b {:trigger Two(a, b)} | Two(a, b) && 0 <= a < b < |s| - 1
        ensures comp(s[1..][a].key, s[1..][b].key) <= 0
      {
        assert Two(a + 1, b + 1);
      }
      FirstAtLeastAt(comp, k, s[1..], i - 1);
    }
  }

  /** The runs w say how the list s is to be without the node at position k. */
  ghost predicate Reduced(comp: Comparator, allowDups: bool, s: seq<Node>, k: nat, w: seq<Run>) {
    && Ordered(comp, w) && k < |s| && Flat(w) == s[..k] + s[k + 1..]
    && (allowDups || forall r <- w :: r.dups == [])
  }

  lemma DropAt<T>(p: seq<T>, x: T, q: seq<T>)
    ensures var s := p + [x] + q; s[..|p|] + s[|p| + 1..] == p + q
  {
  }

  lemma OrderedDrop(comp: Comparator, a: seq<Run>, r: Run, b: seq<Run>)
    requires Orders(comp) && Ordered(comp, a + [r] + b)
    ensures Ordered(comp, a + b)
  {
    OrderedSplit(comp, a, r, b);
    var w, k := a + b, |a|;
    forall i, j {:trigger Two(i, j)} | Two(i, j) && 0 <= i < j < |w|
      ensures comp(w[i].head.key, w[j].head.key) < 0
    {
      if i < k <= j {
        assert w[i] in a && w[j] in b;
        Follows(comp, w[i].head.key, r.head.key, w[j].head.key);
      } else if i >= k {
        assert Two(i - k, j - k);
      }
    }
  }

  lemma {:induction false} RunFlat(a: seq<Run>, r: Run, b: seq<Run>)
    requires r.dups == []
    ensures var s, k := Flat(a + [r] + b), |Flat(a)|; k < |s| && Flat(a + b) == s[..k] + s[k + 1..]
  {
    FlatSplit(a, r, b);
    FlatSum(a, b);
    assert [r.head] + r.dups == [r.head];
    DropAt(Flat(a), r.head, Flat(b));
  }

  lemma {:induction false} RunGone(comp: Comparator, allowDups: bool, a: seq<Run>, r: Run, b: seq<Run>)
    requires Orders(comp) && Ordered(comp, a + [r] + b) && r.dups == []
    requires allowDups || forall q <- a + [r] + b :: q.dups == []
    ensures Reduced(comp, allowDups, Flat(a + [r] + b), |Flat(a)|, a + b)
  {
    OrderedDrop(comp, a, r, b);
    RunFlat(a, r, b);
    assert forall q <- a + b :: q in a + [r] + b;
  }

  lemma {:induction false} LeaderGone(comp: Comparator, a: seq<Run>, r: Run, b: seq<Run>)
    requires Orders(comp) && Ordered(comp, a + [r] + b) && r.dups != []
    ensures Reduced(comp, true, Flat(a + [r] + b), |Flat(a)|, a + [Run(r.dups[0], r.dups[1..])] + b)
  {
    var n := Run(r.dups[0], r.dups[1..]);
    OrderedSplit(comp, a, r, b);
    AlikeSorted(comp, r);
    assert n.head in r.dups && comp(n.head.key, r.head.key) == 0;
    forall d | d in n.dups
      ensures comp(n.head.key, d.key) == 0
    {
      assert d in r.dups;
      Follows(comp, n.head.key, r.head.key, d.key);
      Follows(comp, d.key, r.head.key, n.head.key);
    }
    BelowBelow(comp, a, r.head.key, n.head.key);
    AboveAbove(comp, n.head.key, r.head.key, b);
    OrderedJoin(comp, a, n, b);
    LeaderFlat(a, r, b);
  }

  lemma {:induction false} LeaderFlat(a: seq<Run>, r: Run, b: seq<Run>)
    requires r.dups != []
    ensures var s, k := Flat(a + [r] + b), |Flat(a)|;
            k < |s| && Flat(a + [Run(r.dups[0], r.dups[1..])] + b) == s[..k] + s[k + 1..]
  {
    var n := Run(r.dups[0], r.dups[1..]);
    FlatSplit(a, r, b);
    FlatSplit(a, n, b);
    DropFirst(Flat(a), r.head, r.dups, Flat(b));
  }

  lemma DropFirst<T>(p: seq<T>, x: T, d: seq<T>, q: seq<T>)
    requires d != []
    ensures var s := p + ([x] + d) + q; s[..|p|] + s[|p| + 1..] == p + ([d[0]] + d[1..]) + q
  {
    assert p + ([x] + d) + q == p + [x] + (d + q);
    DropAt(p, x, d + q);
    assert [d[0]] + d[1..] == d;
  }

  lemma DropLater<T>(p: seq<T>, x: T, d: seq<T>, q: seq<T>, i: nat)
    requires i < |d|
    ensures var s, k := p + ([x] + d) + q, |p| + 1 + i; s[..k] + s[k + 1..] == p + ([x] + (d[..i] + d[i + 1..])) + q
  {
    var s, k := p + ([x] + d) + q, |p| + 1 + i;
    var t := p + ([x] + (d[..i] + d[i + 1..])) + q;
    assert |s[..k] + s[k + 1..]| == |t|;
    forall j | 0 <= j < |t|
      ensures (s[..k] + s[k + 1..])[j] == t[j]
    {
    }
  }

  lemma {:induction false} DupGone(comp: Comparator, a: seq<Run>, r: Run, b: seq<Run>, i: nat)
    requires Orders(comp) && Ordered(comp, a + [r] + b) && i < |r.dups|
    ensures Reduced(comp, true, Flat(a + [r] + b), |Flat(a)| + 1 + i,
            a + [Run(r.head, r.dups[..i] + r.dups[i + 1..])] + b)
  {
    var n := Run(r.head, r.dups[..i] + r.dups[i + 1..]);
    OrderedSplit(comp, a, r, b);
    OrderedJoin(comp, a, n, b);
    DupFlat(a, r, b, i);
  }

  lemma {:induction false} DupFlat(a: seq<Run>, r: Run, b: seq<Run>, i: nat)
    requires i < |r.dups|
    ensures var s, k := Flat(a + [r] + b), |Flat(a)| + 1 + i;
            k < |s| && Flat(a + [Run(r.head, r.dups[..i] + r.dups[i + 1..])] + b) == s[..k] + s[k + 1..]
  {
    var n := Run(r.head, r.dups[..i] + r.dups[i + 1..]);
    FlatSplit(a, r, b);
    FlatSplit(a, n, b);
    DropLater(Flat(a), r.head, r.dups, Flat(b), i);
  }
}
