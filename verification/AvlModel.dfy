/** Values behind the AVL tree of libubox: keys, nodes, the shape of the tree with its
    stored balances and duplicates, and the position of a subtree inside a tree. */
module AvlModel {

  /** The keys used with this tree: C strings (avl_strcmp) and 32-bit ids (ubus_cmp_id). */
  datatype Key = Text(text: string) | Id(id: nat)

  type Comparator = (Key, Key) -> int

  /** What a tree comparator has to be: its sign orders the keys, equal keys may differ. */
  ghost predicate Orders(comp: Comparator) {
    && (forall a, b :: comp(a, b) < 0 <==> comp(b, a) > 0)
    && (forall a, b, c {:trigger Chain(a, b, c)} ::
          Chain(a, b, c) && comp(a, b) <= 0 && comp(b, c) <= 0 ==> comp(a, c) <= 0)
  }

  /** Names the three keys of a step of transitivity. */
  ghost predicate Chain(a: Key, b: Key, c: Key) { true }

  lemma Follows(comp: Comparator, a: Key, b: Key, c: Key)
    requires Orders(comp) && comp(a, b) <= 0 && comp(b, c) <= 0
    ensures comp(a, c) <= 0
    ensures comp(a, b) < 0 || comp(b, c) < 0 ==> comp(a, c) < 0
  {
    assert Chain(a, b, c) && Chain(b, c, a) && Chain(c, a, b);
  }

  /** A list_head: the links of a node in the threaded list, or the head of that list. */
  class Entry {
    var prev: Entry?
    var next: Entry?
    var owner: Node?

    constructor ()
      ensures owner == null
    {
      prev, next, owner := null, null, null;
    }
  }

  class Node {
    const key: Key
    const list: Entry
    var parent: Node?
    var left: Node?
    var right: Node?
    var balance: int
    var leader: bool

    constructor (key: Key)
      ensures this.key == key && fresh(list) && list.owner == this
    {
      this.key := key;
      list := new Entry();
      parent, left, right := null, null, null;
      balance, leader := 0, false;
      new;
      list.owner := this;
    }
  }

  /** The tree of leaders. `head` is the node in the tree, `dups` are the later nodes of
      equal key, which are only in the threaded list; `bal` is the stored balance. */
  datatype Tree = Leaf | Fork(left: Tree, head: Node, dups: seq<Node>, bal: int, right: Tree)

  /** A leader with its duplicates. */
  datatype Run = Run(head: Node, dups: seq<Node>)

  /** A tree with one subtree missing, seen from the gap upwards. */
  datatype Context =
    | Top
    | InLeft(up: Context, head: Node, dups: seq<Node>, bal: int, right: Tree)
    | InRight(up: Context, left: Tree, head: Node, dups: seq<Node>, bal: int)

  ghost function Plug(c: Context, t: Tree): Tree
    decreases c
  {
    match c
    case Top => t
    case InLeft(up, x, ds, b, r) => Plug(up, Fork(t, x, ds, b, r))
    case InRight(up, l, x, ds, b) => Plug(up, Fork(l, x, ds, b, t))
  }

  /** The tree one level up from the gap once t is in it, its balance changed by delta. */
  ghost function Joined(c: Context, t: Tree, delta: int): Tree
    requires !c.Top?
  {
    if c.InLeft? then Fork(t, c.head, c.dups, c.bal + delta, c.right)
    else Fork(c.left, c.head, c.dups, c.bal + delta, t)
  }

  ghost function Ptr(t: Tree): Node? {
    if t.Leaf? then null else t.head
  }

  ghost function Above(c: Context): Node? {
    if c.Top? then null else c.head
  }

  /** The in-order walk of the leaders, each with its duplicates. */
  ghost function Walk(t: Tree): seq<Run> {
    match t
    case Leaf => []
    case Fork(l, x, ds, _, r) => Walk(l) + [Run(x, ds)] + Walk(r)
  }

  ghost function Before(c: Context): seq<Run> {
    match c
    case Top => []
    case InLeft(up, _, _, _, _) => Before(up)
    case InRight(up, l, x, ds, _) => Before(up) + (Walk(l) + [Run(x, ds)])
  }

  ghost function After(c: Context): seq<Run> {
    match c
    case Top => []
    case InLeft(up, x, ds, _, r) => ([Run(x, ds)] + Walk(r)) + After(up)
    case InRight(up, _, _, _, _) => After(up)
  }

  ghost function Heads(t: Tree): set<Node> {
    match t
    case Leaf => {}
    case Fork(l, x, _, _, r) => Heads(l) + {x} + Heads(r)
  }

  ghost function HeadsAround(c: Context): set<Node> {
    match c
    case Top => {}
    case InLeft(up, x, _, _, r) => HeadsAround(up) + {x} + Heads(r)
    case InRight(up, l, x, _, _) => HeadsAround(up) + {x} + Heads(l)
  }

  /** No node is in the tree twice. */
  ghost predicate Simple(t: Tree) {
    match t
    case Leaf => true
    case Fork(l, x, _, _, r) =>
      Simple(l) && Simple(r) && x !in Heads(l) && x !in Heads(r) && Heads(l) !! Heads(r)
  }

  ghost predicate SimpleAround(c: Context) {
    match c
    case Top => true
    case InLeft(up, x, _, _, r) =>
      SimpleAround(up) && Simple(r) && x !in Heads(r) && x !in HeadsAround(up) && Heads(r) !! HeadsAround(up)
    case InRight(up, l, x, _, _) =>
      SimpleAround(up) && Simple(l) && x !in Heads(l) && x !in HeadsAround(up) && Heads(l) !! HeadsAround(up)
  }

  function Max(x: int, y: int): int { if x > y then x else y }
  function Min(x: int, y: int): int { if x < y then x else y }

  ghost function Height(t: Tree): nat {
    match t
    case Leaf => 0
    case Fork(l, _, _, _, r) => 1 + Max(Height(l), Height(r))
  }

  /** Every stored balance is the height of the right subtree minus that of the left one. */
  ghost predicate Exact(t: Tree) {
    match t
    case Leaf => true
    case Fork(l, _, _, b, r) => Exact(l) && Exact(r) && b == Height(r) - Height(l)
  }

  /** Exact, and every balance is -1, 0 or 1. */
  ghost predicate Balanced(t: Tree) {
    match t
    case Leaf => true
    case Fork(l, _, _, b, r) => Balanced(l) && Balanced(r) && b == Height(r) - Height(l) && -1 <= b <= 1
  }

  function Fib(n: nat): nat {
    if n < 2 then n else Fib(n - 2) + Fib(n - 1)
  }

  lemma {:induction false} FibGrows(m: nat, n: nat)
    requires m <= n
    ensures Fib(m) <= Fib(n)
  {
    if m < n {
      FibGrows(m, n - 1);
    }
  }

  /** Two subtrees that are large enough for their heights i and j make a tree that is. */
  lemma {:induction false} FibNext(i: nat, m: nat, j: nat, n: nat, h: nat)
    requires m + 1 >= Fib(i + 2) && n + 1 >= Fib(j + 2) && -1 <= i - j <= 1 && h == 1 + Max(i, j)
    ensures m + 1 + n + 1 >= Fib(h + 2)
  {
    assert Fib(h + 2) == Fib(h) + Fib(h + 1);
    FibGrows(h, i + 2);
    FibGrows(h, j + 2);
  }

  lemma Counted<T>(a: set<T>, x: T, b: set<T>)
    requires x !in a && x !in b && a !! b
    ensures |a + {x} + b| == |a| + 1 + |b|
  {
  }

  ghost function Size(t: Tree): nat {
    match t
    case Leaf => 0
    case Fork(l, _, _, _, r) => Size(l) + 1 + Size(r)
  }

  lemma {:induction false} SizeCounts(t: Tree)
    requires Simple(t)
    ensures |Heads(t)| == Size(t)
  {
    match t
    case Leaf =>
    case Fork(l, x, _, _, r) =>
      SizeCounts(l);
      SizeCounts(r);
      Counted(Heads(l), x, Heads(r));
  }

  lemma {:induction false} FewestNodes(t: Tree)
    requires Balanced(t)
    ensures Size(t) + 1 >= Fib(Height(t) + 2)
  {
    match t
    case Leaf =>
    case Fork(l, _, _, _, r) =>
      FewestNodes(l);
      FewestNodes(r);
      FibNext(Height(l), Size(l), Height(r), Size(r), Height(t));
  }

  /** A balanced tree of height h has at least Fib(h + 2) - 1 leaders. */
  lemma {:induction false} FewestLeaders(t: Tree)
    requires Simple(t) && Balanced(t)
    ensures |Heads(t)| + 1 >= Fib(Height(t) + 2)
  {
    SizeCounts(t);
    FewestNodes(t);
  }

  /** The context is balanced once its gap holds a subtree of height h. */
  ghost predicate BalancedAround(c: Context, h: nat) {
    match c
    case Top => true
    case InLeft(up, _, _, b, r) =>
      Balanced(r) && b == Height(r) - h && -1 <= b <= 1 && BalancedAround(up, 1 + Max(h, Height(r)))
    case InRight(up, l, _, _, b) =>
      Balanced(l) && b == h - Height(l) && -1 <= b <= 1 && BalancedAround(up, 1 + Max(Height(l), h))
  }

  /** The two rotations with the balance updates the code makes. */
  ghost function RotatedRight(t: Tree): Tree
    requires t.Fork? && t.left.Fork?
  {
    var l := t.left;
    var b := t.bal + 1 - Min(l.bal, 0);
    Fork(l.left, l.head, l.dups, l.bal + 1 + Max(b, 0), Fork(l.right, t.head, t.dups, b, t.right))
  }

  ghost function RotatedLeft(t: Tree): Tree
    requires t.Fork? && t.right.Fork?
  {
    var r := t.right;
    var b := t.bal - (1 + Max(r.bal, 0));
    Fork(Fork(t.left, t.head, t.dups, b, r.left), r.head, r.dups, r.bal - (1 - Min(b, 0)), r.right)
  }

  lemma Regroup<T>(a: seq<T>, b: seq<T>, c: seq<T>, d: seq<T>, e: seq<T>)
    ensures (a + b + c) + d + e == a + b + (c + d + e)
  {
  }

  /** Rotating keeps the walk and the nodes, and keeps stored balances exact whatever they are. */
  lemma {:induction false} RotatedRightKeeps(t: Tree)
    requires t.Fork? && t.left.Fork?
    ensures Walk(RotatedRight(t)) == Walk(t)
    ensures Heads(RotatedRight(t)) == Heads(t)
    ensures Simple(t) ==> Simple(RotatedRight(t))
    ensures Exact(t) ==> Exact(RotatedRight(t))
  {
    var l := t.left;
    assert Simple(t) ==> Simple(l);
    assert Exact(t) ==> Exact(l);
    var low := Fork(l.right, t.head, t.dups, t.bal + 1 - Min(l.bal, 0), t.right);
    assert Walk(RotatedRight(t)) == Walk(l.left) + [Run(l.head, l.dups)] + Walk(low);
    Regroup(Walk(l.left), [Run(l.head, l.dups)], Walk(l.right), [Run(t.head, t.dups)], Walk(t.right));
  }

  lemma {:induction false} RotatedLeftKeeps(t: Tree)
    requires t.Fork? && t.right.Fork?
    ensures Walk(RotatedLeft(t)) == Walk(t)
    ensures Heads(RotatedLeft(t)) == Heads(t)
    ensures Simple(t) ==> Simple(RotatedLeft(t))
    ensures Exact(t) ==> Exact(RotatedLeft(t))
  {
    var r := t.right;
    assert Simple(t) ==> Simple(r);
    assert Exact(t) ==> Exact(r);
    var low := Fork(t.left, t.head, t.dups, t.bal - (1 + Max(r.bal, 0)), r.left);
    assert Walk(RotatedLeft(t)) == Walk(low) + [Run(r.head, r.dups)] + Walk(r.right);
    Regroup(Walk(t.left), [Run(t.head, t.dups)], Walk(r.left), [Run(r.head, r.dups)], Walk(r.right));
  }

  lemma Shift<T>(a: seq<T>, b: seq<T>, c: seq<T>, d: seq<T>, e: seq<T>)
    ensures a + (b + c + d) + e == a + b + ((c + d) + e)
    ensures a + (b + c + d) + e == a + (b + c) + d + e
  {
  }

  lemma {:induction false} PlugWalk(c: Context, t: Tree)
    ensures Walk(Plug(c, t)) == Before(c) + Walk(t) + After(c)
    decreases c
  {
    match c
    case Top =>
    case InLeft(up, x, ds, b, r) =>
      PlugWalk(up, Fork(t, x, ds, b, r));
      Shift(Before(up), Walk(t), [Run(x, ds)], Walk(r), After(up));
    case InRight(up, l, x, ds, b) =>
      PlugWalk(up, Fork(l, x, ds, b, t));
      Shift(Before(up), Walk(l), [Run(x, ds)], Walk(t), After(up));
  }

  lemma {:induction false} PlugHeads(c: Context, t: Tree)
    ensures Heads(Plug(c, t)) == Heads(t) + HeadsAround(c)
    decreases c
  {
    match c
    case Top =>
    case InLeft(up, x, ds, b, r) => PlugHeads(up, Fork(t, x, ds, b, r));
    case InRight(up, l, x, ds, b) => PlugHeads(up, Fork(l, x, ds, b, t));
  }

  lemma {:induction false} PlugSimple(c: Context, t: Tree)
    ensures Simple(Plug(c, t)) <==> Simple(t) && SimpleAround(c) && Heads(t) !! HeadsAround(c)
    decreases c
  {
    match c
    case Top =>
    case InLeft(up, x, ds, b, r) => PlugSimple(up, Fork(t, x, ds, b, r));
    case InRight(up, l, x, ds, b) => PlugSimple(up, Fork(l, x, ds, b, t));
  }

  lemma {:induction false} PlugBalanced(c: Context, t: Tree)
    ensures Balanced(Plug(c, t)) <==> Balanced(t) && BalancedAround(c, Height(t))
    decreases c
  {
    match c
    case Top =>
    case InLeft(up, x, ds, b, r) => PlugBalanced(up, Fork(t, x, ds, b, r));
    case InRight(up, l, x, ds, b) => PlugBalanced(up, Fork(l, x, ds, b, t));
  }

  /** Subtrees with the same walk can be exchanged. */
  lemma {:induction false} Exchange(c: Context, t: Tree, u: Tree)
    requires Walk(t) == Walk(u)
    ensures Walk(Plug(c, t)) == Walk(Plug(c, u))
  {
    PlugWalk(c, t);
    PlugWalk(c, u);
  }

  /** A node that is too heavy on the left: one rotation suits a left child that is not
      heavy on the right, and lowers the node unless that child was even. */
  lemma {:induction false} SingleRight(t: Tree)
    requires t.Fork? && t.left.Fork? && Balanced(t.left) && Balanced(t.right)
    requires t.bal == Height(t.right) - Height(t.left) == -2 && t.left.bal <= 0
    ensures Balanced(RotatedRight(t))
    ensures Height(RotatedRight(t)) == if t.left.bal == 0 then Height(t) else Height(t) - 1
  {
    var l := t.left;
    assert Balanced(l.left) && Balanced(l.right);
    assert Balanced(RotatedRight(t).right);
  }

  lemma {:induction false} SingleLeft(t: Tree)
    requires t.Fork? && t.right.Fork? && Balanced(t.left) && Balanced(t.right)
    requires t.bal == Height(t.right) - Height(t.left) == 2 && t.right.bal >= 0
    ensures Balanced(RotatedLeft(t))
    ensures Height(RotatedLeft(t)) == if t.right.bal == 0 then Height(t) else Height(t) - 1
  {
    var r := t.right;
    assert Balanced(r.left) && Balanced(r.right);
    assert Balanced(RotatedLeft(t).left);
  }

  /** The double rotation, which always lowers the node. */
  ghost function TwiceRight(t: Tree): Tree
    requires t.Fork? && t.left.Fork? && t.left.right.Fork?
  {
    RotatedRight(t.(left := RotatedLeft(t.left)))
  }

  ghost function TwiceLeft(t: Tree): Tree
    requires t.Fork? && t.right.Fork? && t.right.left.Fork?
  {
    RotatedLeft(t.(right := RotatedRight(t.right)))
  }

  lemma {:induction false} DoubleRight(t: Tree)
    requires t.Fork? && t.left.Fork? && Balanced(t.left) && Balanced(t.right)
    requires t.bal == Height(t.right) - Height(t.left) == -2 && t.left.bal == 1
    ensures t.left.right.Fork? && Balanced(TwiceRight(t)) && Height(TwiceRight(t)) == Height(t) - 1
  {
    var l, m := t.left, t.left.right;
    assert Balanced(l.left) && Balanced(m) && Balanced(m.left) && Balanced(m.right);
    var u := TwiceRight(t);
    assert u.left == Fork(l.left, l.head, l.dups, u.left.bal, m.left) && Balanced(u.left);
    assert u.right == Fork(m.right, t.head, t.dups, u.right.bal, t.right) && Balanced(u.right);
  }

  lemma {:induction false} DoubleLeft(t: Tree)
    requires t.Fork? && t.right.Fork? && Balanced(t.left) && Balanced(t.right)
    requires t.bal == Height(t.right) - Height(t.left) == 2 && t.right.bal == -1
    ensures t.right.left.Fork? && Balanced(TwiceLeft(t)) && Height(TwiceLeft(t)) == Height(t) - 1
  {
    var r, m := t.right, t.right.left;
    assert Balanced(r.right) && Balanced(m) && Balanced(m.left) && Balanced(m.right);
    var u := TwiceLeft(t);
    assert u.right == Fork(m.right, r.head, r.dups, u.right.bal, r.right) && Balanced(u.right);
    assert u.left == Fork(t.left, t.head, t.dups, u.left.bal, m.left) && Balanced(u.left);
  }

  lemma {:induction false} TwiceRightKeeps(t: Tree)
    requires t.Fork? && t.left.Fork? && t.left.right.Fork?
    ensures Walk(TwiceRight(t)) == Walk(t)
  {
    RotatedLeftKeeps(t.left);
    RotatedRightKeeps(t.(left := RotatedLeft(t.left)));
  }

  lemma {:induction false} TwiceLeftKeeps(t: Tree)
    requires t.Fork? && t.right.Fork? && t.right.left.Fork?
    ensures Walk(TwiceLeft(t)) == Walk(t)
  {
    RotatedRightKeeps(t.right);
    RotatedLeftKeeps(t.(right := RotatedRight(t.right)));
  }

  /** The height of s before one of its subtrees grew or shrank by one. */
  ghost function PlainHeight(s: Tree): int {
    if s.Leaf? then 0 else if s.bal == 0 then Height(s) else Height(s) - 1
  }

  /** The two subtrees of s are balanced, and differ by its balance, which is at most two. */
  ghost predicate Leaning(s: Tree) {
    s.Fork? && Balanced(s.left) && Balanced(s.right) && s.bal == Height(s.right) - Height(s.left) && -2 <= s.bal <= 2
  }

  /** The gap was balanced for a subtree one lower than t: the node above leans one further
      towards t, and grows unless it becomes even. */
  lemma {:induction false} GrewBelow(c: Context, t: Tree)
    requires t.Fork? && Balanced(t) && BalancedAround(c, Height(t) - 1)
    ensures !c.Top? ==> var s := Joined(c, t, if c.InLeft? then -1 else 1);
                        && Leaning(s) && (if c.InLeft? then s.bal <= 0 else 0 <= s.bal)
                        && PlainHeight(s) >= 0 && BalancedAround(c.up, PlainHeight(s))
  {
    if c.InLeft? {
      assert PlainHeight(Joined(c, t, -1)) == 1 + Max(Height(t) - 1, Height(c.right));
    } else if c.InRight? {
      assert PlainHeight(Joined(c, t, 1)) == 1 + Max(Height(c.left), Height(t) - 1);
    }
  }

  /** The height of s before one of its subtrees shrank by one. */
  ghost function FullHeight(s: Tree): nat {
    if s.Fork? && s.bal == 0 then Height(s) + 1 else Height(s)
  }

  /** The gap was balanced for a subtree one higher than t: the node above leans one further
      away from t, and shrinks only if it becomes even. */
  lemma {:induction false} ShrankBelow(c: Context, t: Tree)
    requires !c.Top? && Balanced(t) && BalancedAround(c, Height(t) + 1)
    ensures var s := Joined(c, t, if c.InLeft? then 1 else -1);
            Leaning(s) && BalancedAround(c.up, FullHeight(s))
  {
    var s := Joined(c, t, if c.InLeft? then 1 else -1);
    if c.InLeft? {
      assert FullHeight(s) == 1 + Max(Height(t) + 1, Height(c.right));
    } else {
      assert FullHeight(s) == 1 + Max(Height(c.left), Height(t) + 1);
    }
  }

  /** The place of x in a tree. */
  lemma {:induction false} Locate(c: Context, t: Tree, x: Node) returns (d: Context, s: Tree)
    requires x in Heads(t)
    ensures s.Fork? && s.head == x && Plug(d, s) == Plug(c, t)
    decreases t
  {
    if x == t.head {
      d, s := c, t;
    } else if x in Heads(t.left) {
      d, s := Locate(InLeft(c, t.head, t.dups, t.bal, t.right), t.left, x);
    } else {
      d, s := Locate(InRight(c, t.left, t.head, t.dups, t.bal), t.right, x);
    }
  }

  ghost function HeadsOf(w: seq<Run>): set<Node> {
    set r <- w :: r.head
  }

  lemma HeadsOfSum(v: seq<Run>, w: seq<Run>)
    ensures HeadsOf(v + w) == HeadsOf(v) + HeadsOf(w)
  {
    assert forall r <- v :: r in v + w;
    assert forall r <- w :: r in v + w;
  }

  lemma {:induction false} WalkHeads(t: Tree)
    ensures HeadsOf(Walk(t)) == Heads(t)
  {
    if t.Fork? {
      WalkHeads(t.left);
      WalkHeads(t.right);
      HeadsOfSum(Walk(t.left) + [Run(t.head, t.dups)], Walk(t.right));
      HeadsOfSum(Walk(t.left), [Run(t.head, t.dups)]);
      assert HeadsOf([Run(t.head, t.dups)]) == {t.head};
    }
  }

  /** A run whose leader occurs once splits a walk in one way only. */
  lemma SplitOnce(a: seq<Run>, x: Node, ds: seq<Node>, b: seq<Run>, a': seq<Run>, ds': seq<Node>, b': seq<Run>)
    requires a + [Run(x, ds)] + b == a' + [Run(x, ds')] + b'
    requires x !in HeadsOf(a + b) && x !in HeadsOf(a' + b')
    ensures a == a' && ds == ds' && b == b'
  {
    var w := a + [Run(x, ds)] + b;
    assert w[|a|] == Run(x, ds) && w[|a'|] == Run(x, ds');
    if |a| < |a'| {
      assert false;
    }
    if |a'| < |a| {
      assert false;
    }
    assert a == w[..|a|] && b == w[|a| + 1..];
    assert a' == w[..|a|] && b' == w[|a| + 1..];
  }

  /** The runs before and after the node in focus. */
  ghost function Prior(c: Context, t: Tree): seq<Run>
    requires t.Fork?
  {
    Before(c) + Walk(t.left)
  }

  ghost function Later(c: Context, t: Tree): seq<Run>
    requires t.Fork?
  {
    Walk(t.right) + After(c)
  }

  /** Taking the run m that follows the run of x out, and then putting it where the run of x
      is found, leaves the walk without the run of x. */
  lemma Successor(a: seq<Run>, x: Node, ds: seq<Node>, b: seq<Run>, m: Run, r: seq<Run>, a': seq<Run>, ds': seq<Node>,
      b': seq<Run>)
    requires a + [Run(x, ds)] + b == (a + [Run(x, ds)]) + [m] + r
    requires (a + [Run(x, ds)]) + r == a' + [Run(x, ds')] + b'
    requires x !in HeadsOf(a + b) && x !in HeadsOf(a' + b')
    ensures a' + [m] + b' == a + b
  {
    assert (a + [Run(x, ds)]) + [m] + r == (a + [Run(x, ds)]) + ([m] + r);
    Cancel(a + [Run(x, ds)], b, [m] + r);
    Dropped(a, b, m, r);
    SplitOnce(a, x, ds, r, a', ds', b');
  }

  lemma Cancel<T>(x: seq<T>, y: seq<T>, z: seq<T>)
    requires x + y == x + z
    ensures y == z
  {
    assert y == (x + y)[|x|..];
  }

  lemma Dropped<T>(a: seq<T>, b: seq<T>, x: T, r: seq<T>)
    requires b == [x] + r
    ensures forall y <- a + r :: y in a + b
  {
    assert forall y <- r :: y in b;
  }

  /** The walk of a tree, split at the run of the node in focus. */
  lemma {:induction false} SplitAt(c: Context, t: Tree)
    requires t.Fork?
    ensures Walk(Plug(c, t)) == Prior(c, t) + [Run(t.head, t.dups)] + Later(c, t)
  {
    PlugWalk(c, t);
  }

  /** No other run has the leader in focus. */
  lemma {:induction false} Apart(c: Context, t: Tree)
    requires t.Fork? && Simple(Plug(c, t))
    ensures t.head !in HeadsOf(Prior(c, t) + Later(c, t))
    decreases c
  {
    PlugSimple(c, t);
    WalkHeads(t.left);
    WalkHeads(t.right);
    AroundHeads(c);
    HeadsOfSum(Prior(c, t), Later(c, t));
    HeadsOfSum(Before(c), Walk(t.left));
    HeadsOfSum(Walk(t.right), After(c));
  }

  lemma {:induction false} AroundHeads(c: Context)
    ensures HeadsOf(Before(c)) <= HeadsAround(c) && HeadsOf(After(c)) <= HeadsAround(c)
  {
    match c
    case Top =>
    case InLeft(up, x, ds, b, r) =>
      AroundHeads(up);
      WalkHeads(r);
      HeadsOfSum([Run(x, ds)] + Walk(r), After(up));
      HeadsOfSum([Run(x, ds)], Walk(r));
    case InRight(up, l, x, ds, b) =>
      AroundHeads(up);
      WalkHeads(l);
      HeadsOfSum(Before(up), Walk(l) + [Run(x, ds)]);
      HeadsOfSum(Walk(l), [Run(x, ds)]);
  }

  /** A node with at most one child leaves the tree by giving its place to that child s. */
  lemma {:induction false} OuterGone(c: Context, t: Tree, s: Tree)
    requires t.Fork? && ((t.left.Leaf? && s == t.right) || (t.right.Leaf? && s == t.left)) && Balanced(Plug(c, t))
    ensures Walk(Plug(c, s)) == Prior(c, t) + Later(c, t)
    ensures Balanced(s) && BalancedAround(c, Height(s) + 1)
  {
    PlugBalanced(c, t);
    OuterWalk(c, t, s);
  }

  lemma {:induction false} OuterWalk(c: Context, t: Tree, s: Tree)
    requires t.Fork? && ((t.left.Leaf? && s == t.right) || (t.right.Leaf? && s == t.left))
    ensures Walk(Plug(c, s)) == Prior(c, t) + Later(c, t)
  {
    PlugWalk(c, s);
    if t.left.Leaf? {
      assert Prior(c, t) == Before(c);
    } else {
      assert Later(c, t) == After(c);
    }
  }

  /** A node with two children leaves the tree: the run s that follows it is taken out, and
      then takes the place w of the node in what is left. */
  lemma {:induction false} InnerGone(c: Context, t: Tree, e: Context, s: Tree, f: Context, w: Tree)
    requires t.Fork? && s.Fork? && s.left.Leaf? && w.Fork? && w.head == t.head
    requires Plug(e, s) == Plug(c, t) && Before(e) == Prior(c, t) + [Run(t.head, t.dups)]
    requires Simple(Plug(c, t)) && Simple(Plug(f, w))
    requires Walk(Plug(f, w)) == Prior(e, s) + Later(e, s)
    ensures Walk(Plug(f, Fork(w.left, s.head, s.dups, w.bal, w.right))) == Prior(c, t) + Later(c, t)
  {
    var n := Fork(w.left, s.head, s.dups, w.bal, w.right);
    SplitAt(c, t);
    SplitAt(e, s);
    SplitAt(f, w);
    SplitAt(f, n);
    Apart(c, t);
    Apart(f, w);
    assert Prior(e, s) == Prior(c, t) + [Run(t.head, t.dups)];
    Successor(Prior(c, t), t.head, t.dups, Later(c, t), Run(s.head, s.dups), Later(e, s), Prior(f, w), w.dups,
      Later(f, w));
  }

  /** t with the new leaf x on one of its sides. */
  ghost function Sprouted(t: Tree, x: Node, onLeft: bool): Tree
    requires t.Fork?
  {
    var leaf := Fork(Leaf, x, [], 0, Leaf);
    if onLeft then Fork(leaf, t.head, t.dups, t.bal - 1, t.right) else Fork(t.left, t.head, t.dups, t.bal + 1, leaf)
  }

  /** The node gets even, or it leans and grows by one. */
  lemma {:induction false} SproutedBalance(c: Context, t: Tree, x: Node, onLeft: bool)
    requires t.Fork? && (if onLeft then t.left.Leaf? else t.right.Leaf?) && Balanced(Plug(c, t))
    ensures var s := Sprouted(t, x, onLeft);
            && Balanced(s)
            && (t.bal != 0 ==> s.bal == 0 && BalancedAround(c, Height(s)))
            && (t.bal == 0 ==> s.bal != 0 && BalancedAround(c, Height(s) - 1))
  {
    PlugBalanced(c, t);
    var s := Sprouted(t, x, onLeft);
    assert if onLeft then Height(t.left) == 0 && Height(s.left) == 1 else Height(t.right) == 0 && Height(s.right) == 1;
    assert Height(t) == if t.bal != 0 then Height(s) else Height(s) - 1;
  }

  lemma {:induction false} SproutedWalk(c: Context, t: Tree, x: Node, onLeft: bool)
    requires t.Fork? && (if onLeft then t.left.Leaf? else t.right.Leaf?)
    ensures var r, n := Run(t.head, t.dups), Run(x, []);
            Walk(Plug(c, Sprouted(t, x, onLeft)))
            == Prior(c, t) + (if onLeft then [n] + [r] else [r] + [n]) + Later(c, t)
  {
    var s := Sprouted(t, x, onLeft);
    SplitAt(c, s);
    assert Walk(Fork(Leaf, x, [], 0, Leaf)) == [Run(x, [])];
  }
}
