/** The intrusive AVL tree with duplicates of libubox (avl.c): parent pointers, stored balances and a list threaded
    through all nodes, rewired in place. */
module Avl {
  import opened Common
  import opened AvlModel
  import opened AvlList
  import opened AvlOrder

  /** The nodes of t store its pointers and balances, with p above t. */
  ghost predicate Rep(t: Tree, p: Node?)
    reads Heads(t)`parent, Heads(t)`left, Heads(t)`right, Heads(t)`balance
  {
    match t
    case Leaf => true
    case Fork(l, x, _, b, r) =>
      x.parent == p && x.left == Ptr(l) && x.right == Ptr(r) && x.balance == b && Rep(l, x) && Rep(r, x)
  }

  class AvlTree {
    const comp: Comparator
    const allowDups: bool
    const listHead: Entry
    var root: Node?
    var count: nat
    ghost var shape: Tree
    ghost var list: seq<Node>
    ghost var ring: seq<Entry>
    ghost var leaders: set<Node>

    /** The nodes around the gap of c store their places, with p in the gap. */
    ghost predicate RepAround(c: Context, p: Node?)
      reads this`root, HeadsAround(c)`parent, HeadsAround(c)`left, HeadsAround(c)`right, HeadsAround(c)`balance
    {
      match c
      case Top => root == p
      case InLeft(up, x, _, b, r) =>
        x.parent == Above(up) && x.left == p && x.right == Ptr(r) && x.balance == b && Rep(r, x) && RepAround(up, x)
      case InRight(up, l, x, _, b) =>
        x.parent == Above(up) && x.left == Ptr(l) && x.right == p && x.balance == b && Rep(l, x) && RepAround(up, x)
    }

    /** The heap holds the tree made of c with t in its gap. */
    ghost predicate Open(c: Context, t: Tree)
      reads this`root, this`leaders
      reads Heads(t)`parent, Heads(t)`left, Heads(t)`right, Heads(t)`balance
      reads HeadsAround(c)`parent, HeadsAround(c)`left, HeadsAround(c)`right, HeadsAround(c)`balance
    {
      && Simple(t) && SimpleAround(c) && Heads(t) !! HeadsAround(c) && Heads(t) <= leaders && HeadsAround(c) <= leaders
      && Rep(t, Above(c)) && RepAround(c, Ptr(t))
    }

    method Relink(parent: Node?, gone: Node, now: Node?, ghost c: Context)
      requires SimpleAround(c) && RepAround(c, gone) && parent == Above(c) && HeadsAround(c) <= leaders
      requires gone !in HeadsAround(c)
      modifies this`root, HeadsAround(c)`parent, HeadsAround(c)`left, HeadsAround(c)`right, HeadsAround(c)`balance
      ensures RepAround(c, now)
    {
      if parent == null {
        root := now;
      } else if parent.left == gone {
        parent.left := now;
      } else {
        parent.right := now;
      }
    }

    /** Makes `par` the parent of the root of t, if there is one. */
    method Adopt(child: Node?, par: Node?, ghost t: Tree, ghost was: Node?)
      requires Simple(t) && Rep(t, was) && child == Ptr(t) && Heads(t) <= leaders
      modifies Heads(t)`parent, Heads(t)`left, Heads(t)`right, Heads(t)`balance
      ensures Rep(t, par)
    {
      if child != null {
        child.parent := par;
      }
    }

    method SpinRight(node: Node, left: Node, ghost t: Tree, ghost p: Node?)
      requires t.Fork? && t.left.Fork? && t.head == node && t.left.head == left && Simple(t) && Rep(t, p)
      requires Heads(t) <= leaders
      modifies Heads(t)`parent, Heads(t)`left, Heads(t)`right, Heads(t)`balance
      ensures Rep(RotatedRight(t), p)
    {
      ghost var a, b, d := t.left.left, t.left.right, t.right;
      assert Rep(t.left, node) && Simple(t.left);
      assert Heads(t.left) == Heads(a) + {left} + Heads(b);
      assert Heads(t) == Heads(a) + {left} + Heads(b) + {node} + Heads(d);
      left.parent := node.parent;
      node.parent := left;
      node.left := left.right;
      left.right := node;
      node.balance := node.balance + 1 - Min(left.balance, 0);
      left.balance := left.balance + 1 + Max(node.balance, 0);
      Adopt(node.left, node, b, left);
    }

    method RotateRight(node: Node, ghost c: Context, ghost t: Tree)
      requires t.Fork? && t.left.Fork? && t.head == node && Open(c, t)
      modifies this`root
      modifies Heads(t)`parent, Heads(t)`left, Heads(t)`right, Heads(t)`balance
      modifies HeadsAround(c)`parent, HeadsAround(c)`left, HeadsAround(c)`right, HeadsAround(c)`balance
      ensures Open(c, RotatedRight(t))
    {
      Relink(node.parent, node, node.left, c);
      assert Rep(t, Above(c));
      SpinRight(node, node.left, t, Above(c));
      RotatedRightKeeps(t);
    }

    method SpinLeft(node: Node, right: Node, ghost t: Tree, ghost p: Node?)
      requires t.Fork? && t.right.Fork? && t.head == node && t.right.head == right && Simple(t) && Rep(t, p)
      requires Heads(t) <= leaders
      modifies Heads(t)`parent, Heads(t)`left, Heads(t)`right, Heads(t)`balance
      ensures Rep(RotatedLeft(t), p)
    {
      ghost var a, b, d := t.left, t.right.left, t.right.right;
      assert Rep(t.right, node) && Simple(t.right);
      assert Heads(t.right) == Heads(b) + {right} + Heads(d);
      assert Heads(t) == Heads(a) + {node} + Heads(b) + {right} + Heads(d);
      right.parent := node.parent;
      node.parent := right;
      node.right := right.left;
      right.left := node;
      node.balance := node.balance - (1 + Max(right.balance, 0));
      right.balance := right.balance - (1 - Min(node.balance, 0));
      Adopt(node.right, node, b, right);
    }

    method RotateLeft(node: Node, ghost c: Context, ghost t: Tree)
      requires t.Fork? && t.right.Fork? && t.head == node && Open(c, t)
      modifies this`root
      modifies Heads(t)`parent, Heads(t)`left, Heads(t)`right, Heads(t)`balance
      modifies HeadsAround(c)`parent, HeadsAround(c)`left, HeadsAround(c)`right, HeadsAround(c)`balance
      ensures Open(c, RotatedLeft(t))
    {
      Relink(node.parent, node, node.right, c);
      assert Rep(t, Above(c));
      SpinLeft(node, node.right, t, Above(c));
      RotatedLeftKeeps(t);
    }

    lemma {:induction false} Zip(c: Context, t: Tree)
      requires Open(c, t) && !c.Top?
      ensures Open(c.up, Joined(c, t, 0))
    {
    }

    lemma {:induction false} Unzip(c: Context, t: Tree)
      requires Open(c, t) && t.Fork?
      ensures Open(InLeft(c, t.head, t.dups, t.bal, t.right), t.left)
      ensures Open(InRight(c, t.left, t.head, t.dups, t.bal), t.right)
    {
    }

    lemma {:induction false} Close(c: Context, t: Tree)
      requires Open(c, t)
      ensures Open(Top, Plug(c, t))
      decreases c
    {
      if !c.Top? {
        Zip(c, t);
        Close(c.up, Joined(c, t, 0));
      }
    }

    /** The heap holds u, a balanced tree with the walk of c around t. */
    ghost predicate Settled(u: Tree, c: Context, t: Tree)
      reads this`root, this`leaders
      reads Heads(u)`parent, Heads(u)`left, Heads(u)`right, Heads(u)`balance
    {
      Open(Top, u) && Balanced(u) && Walk(u) == Walk(Plug(c, t))
    }

    lemma {:induction false} Finish(c: Context, s: Tree, t: Tree)
      requires Open(c, s) && Balanced(s) && BalancedAround(c, Height(s)) && Walk(s) == Walk(t)
      ensures Settled(Plug(c, s), c, t)
    {
      Close(c, s);
      PlugBalanced(c, s);
      Exchange(c, s, t);
    }

    method RotateTwiceRight(node: Node, ghost c: Context, ghost t: Tree)
      requires t.Fork? && t.left.Fork? && t.left.right.Fork? && t.head == node && Open(c, t)
      modifies this`root, leaders`parent, leaders`left, leaders`right, leaders`balance
      ensures Open(c, TwiceRight(t))
    {
      ghost var d := InLeft(c, t.head, t.dups, t.bal, t.right);
      Unzip(c, t);
      RotateLeft(node.left, d, t.left);
      Zip(d, RotatedLeft(t.left));
      RotateRight(node, c, t.(left := RotatedLeft(t.left)));
    }

    method RotateTwiceLeft(node: Node, ghost c: Context, ghost t: Tree)
      requires t.Fork? && t.right.Fork? && t.right.left.Fork? && t.head == node && Open(c, t)
      modifies this`root, leaders`parent, leaders`left, leaders`right, leaders`balance
      ensures Open(c, TwiceLeft(t))
    {
      ghost var d := InRight(c, t.left, t.head, t.dups, t.bal);
      Unzip(c, t);
      RotateRight(node.right, d, t.right);
      Zip(d, RotatedRight(t.right));
      RotateLeft(node, c, t.(right := RotatedRight(t.right)));
    }

    method SetBalance(node: Node, balance: int, ghost c: Context, ghost t: Tree)
      requires Open(c, t) && t.Fork? && t.head == node
      modifies node`balance
      ensures Open(c, t.(bal := balance))
    {
      assert Rep(t.left, node) && Rep(t.right, node);
      node.balance := balance;
      assert Rep(t.left, node) && Rep(t.right, node);
    }

    /** Changes the balance of the node above the gap and moves the focus there. */
    method Tilt(parent: Node, delta: int, ghost c: Context, ghost t: Tree) returns (ghost s: Tree)
      requires Open(c, t) && !c.Top? && c.head == parent
      modifies parent`balance
      ensures s == Joined(c, t, delta) && Open(c.up, s)
      ensures Walk(Plug(c.up, s)) == Walk(Plug(c, t))
    {
      s := Joined(c, t, delta);
      Zip(c, t);
      SetBalance(parent, parent.balance + delta, c.up, Joined(c, t, 0));
      Exchange(c.up, s, Joined(c, t, 0));
    }

    /** A node is the left child of its parent exactly when its context says so. */
    lemma {:induction false} Side(c: Context, t: Tree)
      requires Open(c, t) && t.Fork?
      ensures t.head.parent == Above(c) && (c.Top? <==> Above(c) == null)
      ensures !c.Top? ==> c.head in leaders && (c.InLeft? <==> c.head.left == t.head)
    {
      if c.InRight? {
        assert c.left.Fork? ==> c.left.head in HeadsAround(c);
      }
    }

    /** Restores a node that has become too heavy on the left, by one or two rotations. */
    method MendLeft(node: Node, ghost c: Context, ghost t: Tree) returns (ghost s: Tree)
      requires Open(c, t) && Leaning(t) && t.head == node && t.bal == -2
      modifies this`root, leaders`parent, leaders`left, leaders`right, leaders`balance
      ensures Open(c, s) && Balanced(s) && Walk(s) == Walk(t)
      ensures s.Fork? && node.parent == s.head
      ensures t.left.Fork? && Height(s) == (if t.left.bal == 0 then Height(t) else Height(t) - 1)
    {
      assert t.left.Fork? && Rep(t.left, node);
      if node.left.balance <= 0 {
        SingleRight(t);
        RotatedRightKeeps(t);
        RotateRight(node, c, t);
        s := RotatedRight(t);
      } else {
        DoubleRight(t);
        TwiceRightKeeps(t);
        RotateTwiceRight(node, c, t);
        s := TwiceRight(t);
      }
      assert Rep(s.right, s.head);
    }

    method MendRight(node: Node, ghost c: Context, ghost t: Tree) returns (ghost s: Tree)
      requires Open(c, t) && Leaning(t) && t.head == node && t.bal == 2
      modifies this`root, leaders`parent, leaders`left, leaders`right, leaders`balance
      ensures Open(c, s) && Balanced(s) && Walk(s) == Walk(t)
      ensures s.Fork? && node.parent == s.head
      ensures t.right.Fork? && Height(s) == (if t.right.bal == 0 then Height(t) else Height(t) - 1)
    {
      assert t.right.Fork? && Rep(t.right, node);
      if node.right.balance >= 0 {
        SingleLeft(t);
        RotatedLeftKeeps(t);
        RotateLeft(node, c, t);
        s := RotatedLeft(t);
      } else {
        DoubleLeft(t);
        TwiceLeftKeeps(t);
        RotateTwiceLeft(node, c, t);
        s := TwiceLeft(t);
      }
      assert Rep(s.left, s.head);
    }

    method PostInsert(node: Node, ghost c: Context, ghost t: Tree) returns (ghost u: Tree)
      requires Open(c, t) && t.Fork? && t.head == node && t.bal != 0
      requires Balanced(t) && BalancedAround(c, Height(t) - 1)
      modifies this`root, leaders`parent, leaders`left, leaders`right, leaders`balance
      ensures Settled(u, c, t)
      decreases c, 0
    {
      var parent := node.parent;
      Side(c, t);
      GrewBelow(c, t);
      if parent == null {
        u := t;
        return;
      }
      if node == parent.left {
        ghost var s := Tilt(parent, -1, c, t);
        u := GrownLeft(node, parent, c.up, s);
      } else {
        ghost var s := Tilt(parent, 1, c, t);
        u := GrownRight(node, parent, c.up, s);
      }
    }

    method GrownLeft(node: Node, parent: Node, ghost c: Context, ghost t: Tree) returns (ghost u: Tree)
      requires Open(c, t) && t.Fork? && t.head == parent && t.left.Fork? && t.left.head == node
      requires Leaning(t) && t.bal <= 0 && t.left.bal != 0 && PlainHeight(t) >= 0 && BalancedAround(c, PlainHeight(t))
      modifies this`root, leaders`parent, leaders`left, leaders`right, leaders`balance
      ensures Settled(u, c, t)
      decreases c, 1
    {
      if parent.balance == -1 {
        u := PostInsert(parent, c, t);
        return;
      }
      ghost var s := t;
      if parent.balance != 0 {
        s := MendLeft(parent, c, t);
      }
      assert Height(s) == PlainHeight(t);
      u := Plug(c, s);
      Finish(c, s, t);
    }

    method GrownRight(node: Node, parent: Node, ghost c: Context, ghost t: Tree) returns (ghost u: Tree)
      requires Open(c, t) && t.Fork? && t.head == parent && t.right.Fork? && t.right.head == node
      requires Leaning(t) && 0 <= t.bal && t.right.bal != 0 && PlainHeight(t) >= 0 && BalancedAround(c, PlainHeight(t))
      modifies this`root, leaders`parent, leaders`left, leaders`right, leaders`balance
      ensures Settled(u, c, t)
      decreases c, 1
    {
      if parent.balance == 1 {
        u := PostInsert(parent, c, t);
        return;
      }
      ghost var s := t;
      if parent.balance != 0 {
        s := MendRight(parent, c, t);
      }
      assert Height(s) == PlainHeight(t);
      u := Plug(c, s);
      Finish(c, s, t);
    }

    method PostDelete(node: Node, ghost c: Context, ghost t: Tree) returns (ghost u: Tree)
      requires Open(c, t) && t.Fork? && t.head == node && Balanced(t) && BalancedAround(c, Height(t) + 1)
      modifies this`root, leaders`parent, leaders`left, leaders`right, leaders`balance
      ensures Settled(u, c, t)
      decreases c, 0
    {
      var parent := node.parent;
      Side(c, t);
      if parent == null {
        u := t;
        return;
      }
      u := Unload(parent, node == parent.left, c, t);
    }

    /** The subtree in the gap has lost one level: its parent leans to the other side. */
    method Unload(parent: Node, fromLeft: bool, ghost c: Context, ghost t: Tree) returns (ghost u: Tree)
      requires Open(c, t) && Balanced(t) && BalancedAround(c, Height(t) + 1)
      requires !c.Top? && c.head == parent && (fromLeft <==> c.InLeft?)
      modifies this`root, leaders`parent, leaders`left, leaders`right, leaders`balance
      ensures Settled(u, c, t)
      decreases c.up, 2
    {
      ShrankBelow(c, t);
      ghost var s := Tilt(parent, if fromLeft then 1 else -1, c, t);
      u := Settle(parent, c.up, s);
    }

    /** The rotations of post_delete, if there are any, and whether the subtree is lower than it was. */
    method Mend(node: Node, ghost c: Context, ghost t: Tree) returns (top: Node, shrunk: bool, ghost s: Tree)
      requires Open(c, t) && Leaning(t) && t.head == node
      modifies this`root, leaders`parent, leaders`left, leaders`right, leaders`balance
      ensures Open(c, s) && s.Fork? && s.head == top && Balanced(s) && Walk(s) == Walk(t)
      ensures FullHeight(t) == if shrunk then Height(s) + 1 else Height(s)
    {
      s, top, shrunk := t, node, node.balance == 0;
      if node.balance == 2 {
        assert Rep(t.right, node) && t.right.Fork?;
        shrunk := node.right.balance != 0;
        s := MendRight(node, c, t);
        top := node.parent;
      } else if node.balance == -2 {
        assert Rep(t.left, node) && t.left.Fork?;
        shrunk := node.left.balance != 0;
        s := MendLeft(node, c, t);
        top := node.parent;
      }
    }

    method Settle(node: Node, ghost c: Context, ghost t: Tree) returns (ghost u: Tree)
      requires Open(c, t) && Leaning(t) && t.head == node && BalancedAround(c, FullHeight(t))
      modifies this`root, leaders`parent, leaders`left, leaders`right, leaders`balance
      ensures Settled(u, c, t)
      decreases c, 1
    {
      var top, shrunk, s := Mend(node, c, t);
      Exchange(c, s, t);
      if shrunk {
        u := PostDelete(top, c, s);
      } else {
        u := Plug(c, s);
        Finish(c, s, s);
      }
    }

    lemma {:induction false} Reopen(c: Context, t: Tree)
      requires Open(Top, Plug(c, t))
      ensures Open(c, t)
      decreases c
    {
      if !c.Top? {
        Reopen(c.up, Joined(c, t, 0));
        Unzip(c.up, Joined(c, t, 0));
      }
    }

    /** avl_local_min: the leftmost node below `node`. */
    method LocalMin(node: Node, ghost c: Context, ghost t: Tree) returns (min: Node, ghost d: Context, ghost s: Tree)
      requires Open(c, t) && t.Fork? && t.head == node
      ensures Open(d, s) && s.Fork? && s.head == min && s.left.Leaf?
      ensures Plug(d, s) == Plug(c, t) && Before(d) == Before(c) && HeadsAround(c) <= HeadsAround(d)
    {
      min, d, s := node, c, t;
      while min.left != null
        invariant Open(d, s) && s.Fork? && s.head == min
        invariant Plug(d, s) == Plug(c, t) && Before(d) == Before(c) && HeadsAround(c) <= HeadsAround(d)
        decreases s
      {
        Unzip(d, s);
        min, d, s := min.left, InLeft(d, s.head, s.dups, s.bal, s.right), s.left;
      }
    }

    /** Gives `now` the fields and the children of `gone`. */
    method TakeOver(gone: Node, now: Node, ghost t: Tree, ghost p: Node?, ghost dups: seq<Node>)
      requires t.Fork? && t.head == gone && Simple(t) && Rep(t, p) && now !in Heads(t)
      requires Heads(t) <= leaders && now in leaders
      modifies now`parent, now`left, now`right, now`balance
      modifies Heads(t)`parent, Heads(t)`left, Heads(t)`right, Heads(t)`balance
      ensures Rep(Fork(t.left, now, dups, t.bal, t.right), p)
    {
      now.balance := gone.balance;
      now.parent := gone.parent;
      now.left := gone.left;
      now.right := gone.right;
      assert Rep(t.left, gone) && Rep(t.right, gone);
      Adopt(now.left, now, t.left, gone);
      assert Rep(t.right, gone);
      Adopt(now.right, now, t.right, gone);
    }

    /** Puts the node `now` into the place of `gone`. */
    method Replace(gone: Node, now: Node, ghost c: Context, ghost t: Tree, ghost dups: seq<Node>)
      requires Open(c, t) && t.Fork? && t.head == gone && now in leaders
      requires now !in Heads(t) && now !in HeadsAround(c)
      modifies this`root, leaders`parent, leaders`left, leaders`right, leaders`balance
      ensures Open(c, Fork(t.left, now, dups, t.bal, t.right))
    {
      Relink(gone.parent, gone, now, c);
      assert Rep(t, Above(c));
      TakeOver(gone, now, t, Above(c), dups);
    }

    /** Lets the parent of a node with at most one child take that child in its stead. */
    method Bypass(node: Node, child: Node?, ghost c: Context, ghost t: Tree, ghost s: Tree) returns (ghost u: Tree)
      requires Open(c, t) && t.Fork? && t.head == node && Balanced(s) && BalancedAround(c, Height(s) + 1)
      requires (t.left.Leaf? && s == t.right) || (t.right.Leaf? && s == t.left)
      requires child == Ptr(s)
      modifies this`root, leaders`parent, leaders`left, leaders`right, leaders`balance
      ensures Settled(u, c, s)
    {
      Side(c, t);
      var parent := node.parent;
      var fromLeft := parent != null && parent.left == node;
      assert Rep(s, node);
      Adopt(child, parent, s, node);
      Relink(parent, node, child, c);
      if parent == null {
        u := s;
      } else if child == null {
        u := Unload(parent, fromLeft, c, s);
      } else {
        u := PostDelete(child, c, s);
      }
    }

    /** The heap holds u, a balanced tree without the run of the node in focus. */
    ghost predicate Removed(u: Tree, c: Context, t: Tree)
      requires t.Fork?
      reads this`root, this`leaders
      reads Heads(u)`parent, Heads(u)`left, Heads(u)`right, Heads(u)`balance
    {
      Open(Top, u) && Balanced(u) && Walk(u) == Prior(c, t) + Later(c, t)
    }

    method DeleteWorker(node: Node, ghost c: Context, ghost t: Tree) returns (ghost u: Tree)
      requires Open(c, t) && t.Fork? && t.head == node && Balanced(Plug(c, t))
      modifies this`root, leaders`parent, leaders`left, leaders`right, leaders`balance
      ensures Removed(u, c, t)
      decreases if t.left.Leaf? then 0 else 1, 1
    {
      if node.left != null && node.right != null {
        u := DeleteInner(node, c, t);
        return;
      }
      ghost var s := if t.left.Leaf? then t.right else t.left;
      OuterGone(c, t, s);
      u := Bypass(node, if node.left == null then node.right else node.left, c, t, s);
    }

    /** A node with two children gives its place to the leftmost node of its right subtree. */
    method DeleteInner(node: Node, ghost c: Context, ghost t: Tree) returns (ghost u: Tree)
      requires Open(c, t) && t.Fork? && t.head == node && Balanced(Plug(c, t))
      requires t.left.Fork? && t.right.Fork?
      modifies this`root, leaders`parent, leaders`left, leaders`right, leaders`balance
      ensures Removed(u, c, t)
      decreases 1, 0
    {
      var min;
      ghost var e, s, v, f, w;
      min, e, s, v := TakeNext(node, c, t);
      f, w, u := Inherit(node, min, v, s.dups);
      InnerGone(c, t, e, s, f, w);
    }

    /** Takes the node that follows `node` in the tree out of it. */
    method TakeNext(node: Node, ghost c: Context, ghost t: Tree)
      returns (min: Node, ghost e: Context, ghost s: Tree, ghost v: Tree)
      requires Open(c, t) && t.Fork? && t.head == node && t.right.Fork? && Balanced(Plug(c, t))
      modifies this`root, leaders`parent, leaders`left, leaders`right, leaders`balance
      ensures Plug(e, s) == Plug(c, t) && Simple(Plug(c, t)) && Before(e) == Prior(c, t) + [Run(node, t.dups)]
      ensures s.Fork? && s.left.Leaf? && s.head == min && min in leaders
      ensures Removed(v, e, s) && node in Heads(v) && min !in Heads(v)
      decreases 0, 2
    {
      ghost var d := InRight(c, t.left, t.head, t.dups, t.bal);
      assert Before(d) == Prior(c, t) + [Run(node, t.dups)];
      assert Run(node, t.dups) in Before(d);
      Unzip(c, t);
      min, e, s := LocalMin(node.right, d, t.right);
      PlugSimple(e, s);
      Apart(e, s);
      v := DeleteWorker(min, e, s);
      WalkHeads(v);
      assert Run(node, t.dups) in Prior(e, s) + Later(e, s);
    }

    /** Finds the place of `gone` in the tree and gives it to `now`. */
    method Inherit(gone: Node, now: Node, ghost v: Tree, ghost dups: seq<Node>)
      returns (ghost c: Context, ghost t: Tree, ghost u: Tree)
      requires Open(Top, v) && Balanced(v) && gone in Heads(v) && now !in Heads(v) && now in leaders
      modifies this`root, leaders`parent, leaders`left, leaders`right, leaders`balance
      ensures t.Fork? && t.head == gone && v == Plug(c, t) && Simple(v)
      ensures u == Plug(c, Fork(t.left, now, dups, t.bal, t.right)) && Open(Top, u) && Balanced(u)
    {
      c, t := Locate(Top, v, gone);
      Reopen(c, t);
      PlugHeads(c, t);
      Replace(gone, now, c, t, dups);
      u := Plug(c, Fork(t.left, now, dups, t.bal, t.right));
      Close(c, Fork(t.left, now, dups, t.bal, t.right));
      PlugBalanced(c, t);
      PlugBalanced(c, Fork(t.left, now, dups, t.bal, t.right));
    }

    /** avl_find_rec */
    method FindRec(node: Node, key: Key, ghost c: Context, ghost t: Tree)
      returns (stop: Node, diff: int, ghost d: Context, ghost s: Tree)
      requires Open(c, t) && t.Fork? && t.head == node && Sought(comp, key, c)
      ensures Open(d, s) && s.Fork? && s.head == stop && Plug(d, s) == Plug(c, t) && Sought(comp, key, d)
      ensures diff == comp(key, stop.key) && (diff < 0 ==> s.left.Leaf?) && (diff > 0 ==> s.right.Leaf?)
      decreases t
    {
      stop, diff, d, s := node, comp(key, node.key), c, t;
      if diff < 0 {
        if node.left != null {
          Unzip(c, t);
          stop, diff, d, s := FindRec(node.left, key, InLeft(c, t.head, t.dups, t.bal, t.right), t.left);
        }
      } else if diff > 0 {
        if node.right != null {
          Unzip(c, t);
          stop, diff, d, s := FindRec(node.right, key, InRight(c, t.left, t.head, t.dups, t.bal), t.right);
        }
      }
    }

    /** The threaded list runs through `list`, which `count` counts. */
    ghost predicate Threaded()
      reads this`list, this`ring, this`count, ring`prev, ring`next, ring`owner
    {
      count == |list| && Around(ring, listHead, list) && Ring(ring) && Owned(ring, list)
    }

    /** The leaders in the list are the nodes in the tree. */
    ghost predicate Labelled()
      reads this`list, this`leaders, list`leader
    {
      forall i :: 0 <= i < |list| ==> (list[i].leader <==> list[i] in leaders)
    }

    /** The heap holds a balanced tree of exactly the leaders. */
    ghost predicate Planted()
      reads this`root, this`leaders, this`shape
      reads leaders`parent, leaders`left, leaders`right, leaders`balance
    {
      leaders == Heads(shape) && Open(Top, shape) && Balanced(shape)
    }

    /** The list is the walk of the tree, in order. */
    ghost predicate Listed()
      reads this`list, this`shape
    {
      && list == Flat(Walk(shape)) && Ordered(comp, Walk(shape))
      && (allowDups || forall r <- Walk(shape) :: r.dups == [])
    }

    /** The invariant of a tree. (The comparison with true keeps the parts together in proofs.) */
    ghost predicate Valid()
      reads this, leaders, list, ring
    {
      (Orders(comp) && Threaded() && Labelled() && Planted() && Listed()) == true
    }

    /** The ring consists of the list head and the entries of the nodes in the list, and leaders are listed. */
    lemma {:induction false} Members()
      requires Valid()
      ensures forall e <- ring :: e == listHead || (e.owner in list && e == e.owner.list)
      ensures listHead in ring && forall y <- list :: y.list in ring
      ensures forall y <- leaders :: y in list && y.leader
      ensures forall y <- list :: y.leader <==> y in leaders
    {
      LeadersListed();
      forall e | e in ring
        ensures e == listHead || (e.owner in list && e == e.owner.list)
      {
        var i :| 0 <= i < |ring| && ring[i] == e;
        assert 0 < i <= |list| ==> ring[i] == list[i - 1].list;
      }
      forall y | y in list
        ensures y.list in ring
      {
        var i :| 0 <= i < |list| && list[i] == y;
        assert ring[i + 1] == list[i].list;
      }
    }

    /** The entry of a node that is not in the list is not in its ring. */
    lemma NotInRing(x: Node)
      requires Threaded() && x !in list && x.list.owner == x
      ensures x.list !in ring
    {
      assert forall i :: 0 <= i < |ring| ==> ring[i].owner != x;
    }

    /** avl_insert_before and avl_insert_after: links x into the list at position k. */
    method Thread(x: Node, prev: Entry, next: Entry, ghost k: nat)
      requires Threaded() && k <= |list| && x !in list && x.list.owner == x
      requires prev == ring[k] && next == ring[k + 1]
      modifies this`list, this`ring, this`count, prev`next, next`prev, x.list`prev, x.list`next
      ensures Threaded() && list == old(list[..k] + [x] + list[k..])
    {
      NotInRing(x);
      Spliced(ring, listHead, list, x, k);
      ListAdd(x.list, prev, next, ring, k);
      list, ring, count := list[..k] + [x] + list[k..], ring[..k + 1] + [x.list] + ring[k + 1..], count + 1;
    }

    /** avl_remove: unlinks the node at position k from the list. */
    method Unthread(x: Node, ghost k: nat)
      requires Threaded() && k < |list| && list[k] == x
      modifies this`list, this`ring, this`count, ring`prev, ring`next
      ensures Threaded() && list == old(list[..k] + list[k + 1..])
    {
      Cut(ring, listHead, list, k);
      ListDel(x.list, ring, k + 1);
      list, ring, count := list[..k] + list[k + 1..], ring[..k + 1] + ring[k + 2..], count - 1;
    }

    /** The node at position k and its neighbours in the list. */
    lemma Neighbours(k: nat)
      requires Threaded() && k < |list|
      ensures list[k].list.next == ring[k + 2] && list[k].list.prev == ring[k] && ring[k + 1] == list[k].list
      ensures list[k].list.next == listHead <==> k + 1 == |list|
      ensures list[k].list.prev == listHead <==> k == 0
      ensures k + 1 < |list| ==> ring[k + 2].owner == list[k + 1]
      ensures k > 0 ==> ring[k].owner == list[k - 1]
    {
      assert ring[k + 1] == list[k].list;
    }

    /** The first node in the list, if there is one. */
    lemma FirstInList()
      requires Threaded()
      ensures listHead.next == ring[1] && (list == [] <==> listHead.next == listHead)
      ensures list != [] ==> ring[1].owner == list[0]
    {
      assert ring[0].next == ring[1];
    }

    lemma ListDistinct()
      requires Threaded()
      ensures Distinct(list)
    {
      forall i, j | 0 <= i < j < |list|
        ensures list[i] != list[j]
      {
        assert ring[i + 1] == list[i].list && ring[j + 1] == list[j].list;
      }
    }

    /** The first loop of avl_insert: from a leader at position k to the last of its n duplicates. */
    method LastOfRun(node: Node, ghost k: nat, ghost n: nat) returns (last: Node)
      requires Threaded() && k + n < |list| && list[k] == node
      requires forall i :: k < i <= k + n ==> !list[i].leader
      requires k + n + 1 < |list| ==> list[k + n + 1].leader
      ensures last == list[k + n]
    {
      last := node;
      ghost var i := k;
      Neighbours(i);
      while last.list.next != listHead
        invariant k <= i <= k + n && last == list[i]
        invariant last.list.next == listHead <==> i + 1 == |list|
        decreases |list| - i
      {
        Neighbours(i);
        var next := last.list.next.owner;
        if next.leader {
          break;
        }
        last, i := next, i + 1;
        Neighbours(i);
      }
    }

    /** Hangs the new leaf x below a node that has no child on that side. */
    method HangLeft(node: Node, x: Node, ghost c: Context, ghost t: Tree) returns (ghost s: Tree)
      requires Open(c, t) && t.Fork? && t.head == node && t.left.Leaf?
      requires x in leaders && x !in Heads(t) && x !in HeadsAround(c)
      requires x.left == null && x.right == null && x.balance == 0
      modifies node`left, x`parent
      ensures s == t.(left := Fork(Leaf, x, [], 0, Leaf)) && Open(c, s)
    {
      s := t.(left := Fork(Leaf, x, [], 0, Leaf));
      x.parent := node;
      node.left := x;
      assert Rep(t.right, node);
    }

    method HangRight(node: Node, x: Node, ghost c: Context, ghost t: Tree) returns (ghost s: Tree)
      requires Open(c, t) && t.Fork? && t.head == node && t.right.Leaf?
      requires x in leaders && x !in Heads(t) && x !in HeadsAround(c)
      requires x.left == null && x.right == null && x.balance == 0
      modifies node`right, x`parent
      ensures s == t.(right := Fork(Leaf, x, [], 0, Leaf)) && Open(c, s)
    {
      s := t.(right := Fork(Leaf, x, [], 0, Leaf));
      x.parent := node;
      node.right := x;
      assert Rep(t.left, node);
    }

    /** The last two cases of avl_insert: an even node now leans, and the tree below it has grown. */
    method SproutTaller(node: Node, x: Node, diff: int, ghost c: Context, ghost t: Tree) returns (ghost u: Tree)
      requires Open(c, t) && t.Fork? && t.head == node && Balanced(Plug(c, t)) && t.bal == 0
      requires diff != 0 && (if diff < 0 then t.left.Leaf? else t.right.Leaf?)
      requires x in leaders && x !in Heads(t) && x !in HeadsAround(c)
      requires x.left == null && x.right == null && x.balance == 0
      modifies this`root, leaders`parent, leaders`left, leaders`right, leaders`balance
      ensures Settled(u, c, Sprouted(t, x, diff < 0))
    {
      SproutedBalance(c, t, x, diff < 0);
      ghost var s;
      if diff < 0 {
        SetBalance(node, -1, c, t);
        s := HangLeft(node, x, c, t.(bal := -1));
        assert s == Sprouted(t, x, true);
        u := PostInsert(node, c, s);
      } else {
        SetBalance(node, 1, c, t);
        s := HangRight(node, x, c, t.(bal := 1));
        assert s == Sprouted(t, x, false);
        u := PostInsert(node, c, s);
      }
    }

    /** The last part of avl_insert: the new leaf x goes below the node where the search stopped. */
    method Sprout(node: Node, x: Node, diff: int, ghost c: Context, ghost t: Tree) returns (ghost u: Tree)
      requires Open(c, t) && t.Fork? && t.head == node && Balanced(Plug(c, t))
      requires diff != 0 && (if diff < 0 then t.left.Leaf? else t.right.Leaf?)
      requires x in leaders && x !in Heads(t) && x !in HeadsAround(c)
      requires x.left == null && x.right == null && x.balance == 0
      modifies this`root, leaders`parent, leaders`left, leaders`right, leaders`balance
      ensures Settled(u, c, Sprouted(t, x, diff < 0))
    {
      SproutedBalance(c, t, x, diff < 0);
      ghost var s;
      if node.balance == 1 {
        SetBalance(node, 0, c, t);
        s := HangLeft(node, x, c, t.(bal := 0));
        assert s == Sprouted(t, x, true);
        u := Plug(c, s);
        Finish(c, s, s);
      } else if node.balance == -1 {
        SetBalance(node, 0, c, t);
        s := HangRight(node, x, c, t.(bal := 0));
        assert s == Sprouted(t, x, false);
        u := Plug(c, s);
        Finish(c, s, s);
      } else {
        u := SproutTaller(node, x, diff, c, t);
      }
    }

    /** In the list, the run of the node in focus is one leader followed by its duplicates. */
    lemma {:induction false} RunInList(c: Context, t: Tree)
      requires Threaded() && Labelled() && leaders == Heads(shape) && list == Flat(Walk(shape))
      requires shape == Plug(c, t) && t.Fork?
      ensures var k, n := |Flat(Prior(c, t))|, |t.dups|;
              && k + n < |list| && list[k] == t.head && (forall i :: k < i <= k + n ==> !list[i].leader)
              && (k + n + 1 < |list| ==> list[k + n + 1].leader)
    {
      var a, r, b := Prior(c, t), Run(t.head, t.dups), Later(c, t);
      SplitAt(c, t);
      WalkHeads(shape);
      ListDistinct();
      FlatAt(a, r, b);
      DupsNoHeads(a, r, b);
    }

    /** Where a search for key stops in a valid tree. */
    lemma {:induction false} StopsAt(key: Key, c: Context, t: Tree)
      requires Orders(comp) && Listed() && shape == Plug(c, t) && t.Fork? && Sought(comp, key, c)
      requires (comp(key, t.head.key) < 0 ==> t.left.Leaf?) && (comp(key, t.head.key) > 0 ==> t.right.Leaf?)
      ensures Stopped(comp, key, Prior(c, t), Run(t.head, t.dups), Later(c, t))
      ensures Walk(shape) == Prior(c, t) + [Run(t.head, t.dups)] + Later(c, t)
    {
      StopSplits(comp, key, c, t);
      SplitAt(c, t);
    }

    /** Linking in a node that is no leader, or a new one, keeps the labels right. */
    lemma LabelsStay(s: seq<Node>, x: Node, k: nat)
      requires k <= |s| && list == s[..k] + [x] + s[k..]
      requires forall y <- s :: y.leader <==> y in leaders
      requires x.leader <==> x in leaders
      ensures Labelled()
    {
    }

    /** The heap holds u, a balanced tree of the leaders. */
    ghost predicate Ready(u: Tree)
      reads this`root, this`leaders
      reads Heads(u)`parent, Heads(u)`left, Heads(u)`right, Heads(u)`balance
    {
      (Open(Top, u) && Balanced(u) && leaders == Heads(u)) == true
    }

    /** The duplicates of a node leave no trace in the tree. */
    lemma {:induction false} DupsUnseen(c: Context, t: Tree, ds: seq<Node>)
      requires t.Fork? && Open(Top, Plug(c, t)) && Balanced(Plug(c, t)) && leaders == Heads(Plug(c, t))
      ensures Ready(Plug(c, t.(dups := ds)))
    {
      var s := t.(dups := ds);
      Reopen(c, t);
      assert Open(c, s);
      Close(c, s);
      PlugBalanced(c, t);
      PlugBalanced(c, s);
      PlugHeads(c, t);
      PlugHeads(c, s);
    }

    /** The tree once x has joined the run of the node in focus, where a search for x stopped. */
    lemma {:induction false} PlanDup(x: Node, c: Context, t: Tree) returns (u: Tree)
      requires Orders(comp) && Planted() && Listed() && allowDups && shape == Plug(c, t) && t.Fork?
      requires Sought(comp, x.key, c) && comp(x.key, t.head.key) == 0
      ensures Ready(u)
      ensures Planned(comp, allowDups, list, x, |Flat(Prior(c, t))| + 1 + |t.dups|, Walk(u))
    {
      var s := t.(dups := t.dups + [x]);
      u := Plug(c, s);
      DupsUnseen(c, t, s.dups);
      StopsAt(x.key, c, t);
      SplitAt(c, s);
      DupInserted(comp, Prior(c, t), Run(t.head, t.dups), Later(c, t), x);
    }

    /** Links a node into the list, the labels staying right. */
    method ThreadLabelled(x: Node, prev: Entry, next: Entry, ghost k: nat)
      requires Threaded() && Labelled() && k <= |list| && x !in list && x.list.owner == x
      requires x.leader <==> x in leaders
      requires prev == ring[k] && next == ring[k + 1]
      modifies this`list, this`ring, this`count, ring`prev, ring`next, x.list`prev, x.list`next
      ensures Threaded() && Labelled() && list == old(list[..k] + [x] + list[k..])
    {
      ghost var s := list;
      Thread(x, prev, next, k);
      LabelsStay(s, x, k);
    }

    /** Links a duplicate into the list behind the k-th node. */
    method ThreadDup(x: Node, last: Node, ghost k: nat)
      requires Threaded() && Labelled() && k < |list| && last == list[k] && x !in list && x !in leaders
      requires x.list.owner == x
      modifies this`count, this`list, this`ring, ring`prev, ring`next, x.list`prev, x.list`next, x`leader
      ensures Threaded() && Labelled() && list == old(list[..k + 1] + [x] + list[k + 1..])
    {
      x.leader := false;
      Neighbours(k);
      ThreadLabelled(x, last.list, last.list.next, k + 1);
    }

    method PlaceDup(x: Node, last: Node, ghost k: nat, ghost u: Tree)
      requires Orders(comp) && Threaded() && Labelled() && k < |list| && last == list[k]
      requires x !in list && x !in leaders && x.list.owner == x
      requires Ready(u) && Planned(comp, allowDups, list, x, k + 1, Walk(u))
      modifies this`count, this`list, this`ring, this`shape, ring`prev, ring`next, x.list`prev, x.list`next, x`leader
      ensures Valid() && list == SortedInsert(comp, old(list), x)
    {
      ThreadDup(x, last, k);
      shape := u;
    }

    /** x becomes one of the nodes that may be in the tree. */
    ghost method Enlist(x: Node, c: Context, t: Tree)
      requires Labelled() && x !in list && Open(c, t)
      modifies this`leaders
      ensures Labelled() && Open(c, t) && leaders == old(leaders) + {x}
    {
      leaders := leaders + {x};
    }

    /** Links the new leader x into the list, next to the node where the search stopped. */
    method LinkLeader(x: Node, node: Node, last: Node, diff: int, ghost k: nat, ghost c: Context, ghost t: Tree)
      requires Threaded() && Labelled() && x !in list && x.list.owner == x && x.leader && Open(c, t)
      requires if diff < 0 then k < |list| && list[k] == node else 0 < k <= |list| && list[k - 1] == last
      modifies this`count, this`list, this`ring, this`leaders, ring`prev, ring`next, x.list`prev, x.list`next
      ensures Threaded() && Labelled() && Open(c, t) == true
      ensures leaders == old(leaders) + {x} && list == old(list[..k] + [x] + list[k..])
    {
      Enlist(x, c, t);
      Neighbours(if diff < 0 then k else k - 1);
      var prev, next := last.list, last.list.next;
      if diff < 0 {
        prev, next := node.list.prev, node.list;
      }
      ThreadLabelled(x, prev, next, k);
    }

    method PlaceLeader(x: Node, node: Node, last: Node, diff: int, ghost c: Context, ghost t: Tree, ghost k: nat,
        ghost w: seq<Run>)
      requires Orders(comp) && Threaded() && Labelled() && x !in list && x !in leaders && x.list.owner == x
      requires x.left == null && x.right == null && x.balance == 0 && x.leader
      requires Open(c, t) && t.Fork? && t.head == node && Balanced(Plug(c, t))
      requires diff != 0 && (if diff < 0 then t.left.Leaf? else t.right.Leaf?)
      requires if diff < 0 then k < |list| && list[k] == node else 0 < k <= |list| && list[k - 1] == last
      requires w == Walk(Plug(c, Sprouted(t, x, diff < 0))) && HeadsOf(w) == leaders + {x}
      requires Planned(comp, allowDups, list, x, k, w)
      modifies this`root, this`count, this`list, this`ring, this`leaders, this`shape, ring`prev, ring`next
      modifies x.list`prev, x.list`next, x`parent, x`left, x`right, x`balance
      modifies leaders`parent, leaders`left, leaders`right, leaders`balance
      ensures Valid() && list == SortedInsert(comp, old(list), x)
    {
      LinkLeader(x, node, last, diff, k, c, t);
      PlantLeader(x, node, diff, c, t, w);
    }

    method PlantLeader(x: Node, node: Node, diff: int, ghost c: Context, ghost t: Tree, ghost w: seq<Run>)
      requires Orders(comp) && Threaded() && Labelled() && x in leaders
      requires x.left == null && x.right == null && x.balance == 0
      requires Open(c, t) && t.Fork? && t.head == node && Balanced(Plug(c, t)) && x !in Heads(t) && x !in HeadsAround(c)
      requires diff != 0 && (if diff < 0 then t.left.Leaf? else t.right.Leaf?)
      requires w == Walk(Plug(c, Sprouted(t, x, diff < 0))) && HeadsOf(w) == leaders
      requires list == Flat(w) && Ordered(comp, w) && (allowDups || forall r <- w :: r.dups == [])
      modifies this`root, this`shape, leaders`parent, leaders`left, leaders`right, leaders`balance
      ensures Valid()
    {
      ghost var u := SproutLeader(x, node, diff, c, t);
      WalkHeads(u);
      Replant(u);
    }

    /** The tree that the heap holds is the one the list was made for. */
    ghost method Replant(u: Tree)
      requires Orders(comp) && (Threaded() && Labelled()) == true && Open(Top, u) == true && Balanced(u)
      requires leaders == Heads(u)
      requires list == Flat(Walk(u)) && Ordered(comp, Walk(u)) && (allowDups || forall r <- Walk(u) :: r.dups == [])
      modifies this`shape
      ensures Valid()
    {
      shape := u;
    }

    /** The tree grows without the list being touched. */
    method SproutLeader(x: Node, node: Node, diff: int, ghost c: Context, ghost t: Tree) returns (ghost u: Tree)
      requires Threaded() && Labelled() && x in leaders && x !in Heads(t) && x !in HeadsAround(c)
      requires x.left == null && x.right == null && x.balance == 0
      requires Open(c, t) && t.Fork? && t.head == node && Balanced(Plug(c, t))
      requires diff != 0 && (if diff < 0 then t.left.Leaf? else t.right.Leaf?)
      modifies this`root, leaders`parent, leaders`left, leaders`right, leaders`balance
      ensures (Threaded() && Labelled()) == true && Settled(u, c, Sprouted(t, x, diff < 0))
    {
      u := Sprout(node, x, diff, c, t);
    }

    method InsertFirst(x: Node)
      requires Valid() && root == null && x.list.owner == x
      requires x.parent == null && x.left == null && x.right == null && x.balance == 0 && x.leader
      modifies this`root, this`count, this`list, this`ring, this`leaders, this`shape, ring`prev, ring`next
      modifies x.list`prev, x.list`next
      ensures Valid() && old(list) == [] && list == [x]
    {
      assert shape == Leaf && list == [];
      Thread(x, listHead, listHead.next, 0);
      root := x;
      leaders := {x};
      shape := Fork(Leaf, x, [], 0, Leaf);
      Lone(comp, x);
      assert Rep(Leaf, x);
    }

    /** What a search for key finds, seen from where it stopped. */
    lemma {:induction false} Found(key: Key, c: Context, t: Tree)
      requires Orders(comp) && Listed() && shape == Plug(c, t) && t.Fork? && Sought(comp, key, c)
      requires (comp(key, t.head.key) < 0 ==> t.left.Leaf?) && (comp(key, t.head.key) > 0 ==> t.right.Leaf?)
      ensures FirstEqual(comp, key, list) == if comp(key, t.head.key) == 0 then t.head else null
    {
      StopsAt(key, c, t);
      StoppedFinds(comp, key, Prior(c, t), Run(t.head, t.dups), Later(c, t));
    }

    method RunEnd(node: Node, ghost c: Context, ghost t: Tree) returns (last: Node)
      requires Valid() && shape == Plug(c, t) && t.Fork? && t.head == node
      ensures var k := |Flat(Prior(c, t))|; k + |t.dups| < |list| && list[k] == node && list[k + |t.dups|] == last
    {
      RunInList(c, t);
      last := LastOfRun(node, |Flat(Prior(c, t))|, |t.dups|);
    }

    /** x joins the run of an equal leader. */
    method JoinRun(x: Node, last: Node, ghost c: Context, ghost t: Tree)
      requires Valid() && allowDups && x !in list && x !in leaders && x.list.owner == x
      requires shape == Plug(c, t) && t.Fork? && Sought(comp, x.key, c) && comp(x.key, t.head.key) == 0
      requires |Flat(Prior(c, t))| + |t.dups| < |list| && list[|Flat(Prior(c, t))| + |t.dups|] == last
      modifies this`count, this`list, this`ring, this`shape, ring`prev, ring`next, x.list`prev, x.list`next, x`leader
      ensures Valid() && list == SortedInsert(comp, old(list), x)
    {
      ghost var u := PlanDup(x, c, t);
      PlaceDup(x, last, |Flat(Prior(c, t))| + |t.dups|, u);
    }

    /** The list and the walk once x has become a leaf below the node where the search for x stopped. */
    lemma {:induction false} PlanLeader(x: Node, c: Context, t: Tree) returns (k: nat, w: seq<Run>)
      requires Orders(comp) && Listed() && leaders == Heads(shape) && shape == Plug(c, t) && t.Fork?
      requires Sought(comp, x.key, c)
      requires comp(x.key, t.head.key) != 0 && (if comp(x.key, t.head.key) < 0 then t.left.Leaf? else t.right.Leaf?)
      ensures k == SproutAt(comp, c, t, x) && w == Walk(Plug(c, Sprouted(t, x, comp(x.key, t.head.key) < 0)))
      ensures HeadsOf(w) == leaders + {x} && Planned(comp, allowDups, list, x, k, w)
    {
      k, w := SproutAt(comp, c, t, x), Walk(Plug(c, Sprouted(t, x, comp(x.key, t.head.key) < 0)));
      WalkHeads(shape);
      SproutPlanned(comp, allowDups, c, t, x);
    }

    /** x becomes a leaf of the tree. */
    method NewLeaf(x: Node, node: Node, last: Node, diff: int, ghost c: Context, ghost t: Tree)
      requires Valid() && x !in list && x !in leaders && x.list.owner == x
      requires x.left == null && x.right == null && x.balance == 0 && x.leader
      requires Open(c, t) == true && shape == Plug(c, t) && t.Fork? && t.head == node && Sought(comp, x.key, c)
      requires diff == comp(x.key, node.key) != 0 && (if diff < 0 then t.left.Leaf? else t.right.Leaf?)
      requires var k := |Flat(Prior(c, t))|; k + |t.dups| < |list| && list[k] == node && list[k + |t.dups|] == last
      modifies this`root, this`count, this`list, this`ring, this`leaders, this`shape, ring`prev, ring`next
      modifies x.list`prev, x.list`next, x`parent, x`left, x`right, x`balance
      modifies leaders`parent, leaders`left, leaders`right, leaders`balance
      ensures Valid() && list == SortedInsert(comp, old(list), x)
    {
      ghost var k, w := PlanLeader(x, c, t);
      assert if diff < 0 then list[k] == node else list[k - 1] == last;
      PlaceLeader(x, node, last, diff, c, t, k, w);
    }

    /** avl_insert, from the node where the search for x stopped. */
    method InsertHere(x: Node, node: Node, ghost c: Context, ghost t: Tree) returns (ret: int)
      requires Valid() && x !in list && x !in leaders && x.list.owner == x
      requires x.left == null && x.right == null && x.balance == 0 && x.leader
      requires Open(c, t) == true && shape == Plug(c, t) && t.Fork? && t.head == node && Sought(comp, x.key, c)
      requires (comp(x.key, node.key) < 0 ==> t.left.Leaf?) && (comp(x.key, node.key) > 0 ==> t.right.Leaf?)
      modifies this`root, this`count, this`list, this`ring, this`leaders, this`shape, ring`prev, ring`next
      modifies x.list`prev, x.list`next, x`parent, x`left, x`right, x`balance, x`leader
      modifies leaders`parent, leaders`left, leaders`right, leaders`balance
      ensures Valid() && ret == if comp(x.key, node.key) == 0 && !allowDups then -1 else 0
      ensures list == if ret == 0 then SortedInsert(comp, old(list), x) else old(list)
    {
      var last := RunEnd(node, c, t);
      var diff := comp(x.key, node.key);
      if diff == 0 {
        if !allowDups {
          return -1;
        }
        JoinRun(x, last, c, t);
      } else {
        NewLeaf(x, node, last, diff, c, t);
      }
      return 0;
    }

    lemma {:induction false} LeadersListed()
      requires Planted() && list == Flat(Walk(shape))
      ensures forall x <- leaders :: x in list
    {
      WalkHeads(shape);
      FlatHas(Walk(shape));
    }

    method Reset(x: Node)
      requires Valid() && x !in list && x !in leaders
      modifies x`parent, x`left, x`right, x`balance, x`leader
      ensures Valid() && x.parent == null && x.left == null && x.right == null && x.balance == 0 && x.leader
    {
      x.parent := null;
      x.left := null;
      x.right := null;
      x.balance := 0;
      x.leader := true;
    }

    /** Searches the place of x and inserts it there. */
    method InsertBelow(x: Node) returns (ret: int)
      requires Valid() && root != null && x !in list && x !in leaders && x.list.owner == x
      requires x.left == null && x.right == null && x.balance == 0 && x.leader
      modifies this`root, this`count, this`list, this`ring, this`leaders, this`shape, ring`prev, ring`next
      modifies x.list`prev, x.list`next, x`parent, x`left, x`right, x`balance, x`leader
      modifies leaders`parent, leaders`left, leaders`right, leaders`balance
      ensures Valid() && ret == if FirstEqual(comp, x.key, old(list)) != null && !allowDups then -1 else 0
      ensures list == if ret == 0 then SortedInsert(comp, old(list), x) else old(list)
    {
      var node, diff;
      ghost var c, t;
      node, diff, c, t := FindRec(root, x.key, Top, shape);
      Found(x.key, c, t);
      ret := InsertHere(x, node, c, t);
    }

    method InsertReset(x: Node) returns (ret: int)
      requires Valid() && x !in list && x.list.owner == x
      modifies this`root, this`count, this`list, this`ring, this`leaders, this`shape, ring`prev, ring`next
      modifies x.list`prev, x.list`next, x`parent, x`left, x`right, x`balance, x`leader
      modifies leaders`parent, leaders`left, leaders`right, leaders`balance
      ensures Valid() && ret == if FirstEqual(comp, x.key, old(list)) != null && !allowDups then -1 else 0
      ensures list == if ret == 0 then SortedInsert(comp, old(list), x) else old(list)
    {
      LeadersListed();
      Reset(x);
      if root == null {
        InsertFirst(x);
        return 0;
      }
      ret := InsertBelow(x);
    }

    method InsertMember(x: Node) returns (ret: int)
      requires Valid() && x !in list && x.list.owner == x
      modifies this`root, this`count, this`list, this`ring, this`leaders, this`shape, ring`prev, ring`next
      modifies x.list`prev, x.list`next, x`parent, x`left, x`right, x`balance, x`leader
      modifies leaders`parent, leaders`left, leaders`right, leaders`balance
      ensures Valid() && ret == if FirstEqual(comp, x.key, old(list)) != null && !allowDups then -1 else 0
      ensures list == if ret == 0 then SortedInsert(comp, old(list), x) else old(list)
      ensures leaders <= old(leaders) + {x} && (forall y <- list :: y in old(list) || y == x)
      ensures forall e <- ring :: e in old(ring) || e == x.list
    {
      Members();
      ret := InsertReset(x);
      ListedMore(old(list), x);
      Members();
    }

    /** avl_insert: besides the new node and its entry, the tree consists of what it consisted of. */
    method Insert(x: Node) returns (ret: int)
      requires Valid() && x !in list && x.list.owner == x
      modifies this`root, this`count, this`list, this`ring, this`leaders, this`shape, ring`prev, ring`next
      modifies x.list`prev, x.list`next, x`parent, x`left, x`right, x`balance, x`leader
      modifies leaders`parent, leaders`left, leaders`right, leaders`balance
      ensures Valid() && ret == if FirstEqual(comp, x.key, old(list)) != null && !allowDups then -1 else 0
      ensures list == if ret == 0 then SortedInsert(comp, old(list), x) else old(list)
      ensures leaders <= old(leaders) + {x} && forall i :: 0 <= i < |list| ==> list[i] in old(list) || list[i] == x
      ensures forall i :: 0 <= i < |ring| ==> ring[i] in old(ring) || ring[i] == x.list
    {
      ghost var nodes, entries := list, ring;
      ret := InsertMember(x);
      Each(list, nodes, {x});
      Each(ring, entries, {x.list});
    }

    lemma ListedMore(s: seq<Node>, x: Node)
      requires list == s || list == SortedInsert(comp, s, x)
      ensures forall y <- list :: y in s || y == x
    {
      forall y | y in list
        ensures y in s || y == x
      {
        InsertAdds(comp, s, x, y);
      }
    }

    /** avl_find */
    method Find(key: Key) returns (r: Node?)
      requires Valid()
      ensures r == FirstEqual(comp, key, list)
    {
      if root == null {
        return null;
      }
      var node, diff;
      ghost var c, t;
      node, diff, c, t := FindRec(root, key, Top, shape);
      Found(key, c, t);
      return if diff == 0 then node else null;
    }

    /** Where the searches below start: a node and its position in the list. */
    method Enter(key: Key) returns (node: Node, diff: int, ghost i: nat)
      requires Valid() && root != null
      ensures i < |list| && list[i] == node && diff == comp(key, node.key)
    {
      ghost var c, t;
      node, diff, c, t := FindRec(root, key, Top, shape);
      RunInList(c, t);
      i := |Flat(Prior(c, t))|;
    }

    /** avl_find_lessequal */
    method FindLessEqual(key: Key) returns (r: Node?)
      requires Valid()
      ensures r == LastAtMost(comp, key, list)
    {
      if root == null {
        return null;
      }
      FlatSorted(comp, Walk(shape));
      var node: Node, diff: int;
      ghost var i: int;
      node, diff, i := Enter(key);
      while diff < 0
        invariant 0 <= i < |list| && list[i] == node && diff == comp(key, node.key)
        decreases i
      {
        Neighbours(i);
        if node.list.prev == listHead {
          LastAtMostAt(comp, key, list, -1);
          return null;
        }
        node, i := node.list.prev.owner, i - 1;
        diff := comp(key, node.key);
      }
      var next: Node := node;
      ghost var j := i;
      while diff >= 0
        invariant 0 <= i < |list| && list[i] == node && comp(key, node.key) >= 0
        invariant 0 <= i <= j < |list| && list[j] == next && diff == comp(key, next.key)
        invariant j <= i + 1 && (j == i ==> diff >= 0)
        decreases |list| - j, diff >= 0
      {
        node, i := next, j;
        Neighbours(i);
        if node.list.next == listHead {
          break;
        }
        next, j := node.list.next.owner, i + 1;
        diff := comp(key, next.key);
      }
      LastAtMostAt(comp, key, list, i);
      return node;
    }

    /** avl_find_greaterequal */
    method FindGreaterEqual(key: Key) returns (r: Node?)
      requires Valid()
      ensures r == FirstAtLeast(comp, key, list)
    {
      if root == null {
        return null;
      }
      FlatSorted(comp, Walk(shape));
      var node: Node, diff: int;
      ghost var i: int;
      node, diff, i := Enter(key);
      while diff > 0
        invariant 0 <= i < |list| && list[i] == node && diff == comp(key, node.key)
        decreases |list| - i
      {
        Neighbours(i);
        if node.list.next == listHead {
          FirstAtLeastAt(comp, key, list, |list|);
          return null;
        }
        node, i := node.list.next.owner, i + 1;
        diff := comp(key, node.key);
      }
      var next: Node := node;
      ghost var j := i;
      while diff <= 0
        invariant 0 <= i < |list| && list[i] == node && comp(key, node.key) <= 0
        invariant 0 <= j <= i < |list| && list[j] == next && diff == comp(key, next.key)
        invariant i <= j + 1 && (j == i ==> diff <= 0)
        decreases j, diff <= 0
      {
        node, i := next, j;
        Neighbours(i);
        if node.list.prev == listHead {
          break;
        }
        next, j := node.list.prev.owner, i - 1;
        diff := comp(key, next.key);
      }
      FirstAtLeastAt(comp, key, list, i);
      return node;
    }

    /** Only the nodes of u remain in the tree. */
    ghost method Narrow(u: Tree)
      requires Open(Top, u) && Balanced(u)
      modifies this`leaders, this`shape
      ensures Planted() && shape == u && leaders == Heads(u)
    {
      leaders := Heads(u);
      shape := u;
    }

    /** The last step of avl_delete: the node leaves the list, and the tree is u. */
    method Leave(node: Node, ghost k: nat, ghost u: Tree)
      requires Orders(comp) && Threaded() && k < |list| && list[k] == node && Open(Top, u) && Balanced(u)
      requires Reduced(comp, allowDups, list, k, Walk(u))
      requires forall y <- list :: y != node ==> (y.leader <==> y in Heads(u))
      modifies this`count, this`list, this`ring, this`shape, this`leaders, ring`prev, ring`next
      ensures Valid() && list == old(list[..k] + list[k + 1..]) && shape == u && leaders == Heads(u)
    {
      ListDistinct();
      ghost var s := list;
      Unthread(node, k);
      Narrow(u);
      LabelsLeft(s, k);
    }

    lemma LabelsLeft(s: seq<Node>, k: nat)
      requires k < |s| && Distinct(s) && list == s[..k] + s[k + 1..]
      requires forall y <- s :: y != s[k] ==> (y.leader <==> y in leaders)
      ensures Labelled()
    {
      forall i | 0 <= i < |list|
        ensures list[i].leader <==> list[i] in leaders
      {
        assert list[i] == if i < k then s[i] else s[i + 1];
      }
    }

    /** The tree without a node that has no duplicates. */
    lemma {:induction false} PlanGone(c: Context, t: Tree)
      requires Orders(comp) && Listed() && shape == Plug(c, t) && t.Fork? && t.dups == []
      ensures Reduced(comp, allowDups, list, |Flat(Prior(c, t))|, Prior(c, t) + Later(c, t))
      ensures list[|Flat(Prior(c, t))|] == t.head
    {
      SplitAt(c, t);
      FlatAt(Prior(c, t), Run(t.head, t.dups), Later(c, t));
      RunGone(comp, allowDups, Prior(c, t), Run(t.head, t.dups), Later(c, t));
    }

    /** The tree shrinks without the list being touched. */
    method Uproot(node: Node, ghost c: Context, ghost t: Tree) returns (ghost u: Tree)
      requires Threaded() && Labelled() && leaders == Heads(Plug(c, t))
      requires Open(c, t) && t.Fork? && t.head == node && Balanced(Plug(c, t))
      modifies this`root, leaders`parent, leaders`left, leaders`right, leaders`balance
      ensures Threaded() && Removed(u, c, t) && forall y <- list :: y != node ==> (y.leader <==> y in Heads(u))
    {
      PlugSimple(c, t);
      u := DeleteWorker(node, c, t);
      GoneHeads(c, t, u);
    }

    lemma {:induction false} GoneHeads(c: Context, t: Tree, u: Tree)
      requires t.Fork? && Simple(Plug(c, t)) && Walk(u) == Prior(c, t) + Later(c, t)
      ensures Heads(u) == Heads(Plug(c, t)) - {t.head}
    {
      WalkHeads(u);
      WalkHeads(Plug(c, t));
      SplitAt(c, t);
      Apart(c, t);
      HeadsOfSum(Prior(c, t) + [Run(t.head, t.dups)], Later(c, t));
      HeadsOfSum(Prior(c, t), [Run(t.head, t.dups)]);
      HeadsOfSum(Prior(c, t), Later(c, t));
      assert HeadsOf([Run(t.head, t.dups)]) == {t.head};
    }

    method DeleteLone(node: Node, ghost c: Context, ghost t: Tree)
      requires Valid() && Open(c, t) && shape == Plug(c, t) && t.Fork? && t.head == node && t.dups == []
      modifies this`root, this`count, this`list, this`ring, this`shape, this`leaders, ring`prev, ring`next
      modifies leaders`parent, leaders`left, leaders`right, leaders`balance
      ensures Valid() && var k := |Flat(Prior(c, t))|;
                         k < |old(list)| && old(list)[k] == node && list == old(list)[..k] + old(list)[k + 1..]
    {
      PlanGone(c, t);
      ghost var u := Uproot(node, c, t);
      Leave(node, |Flat(Prior(c, t))|, u);
    }

    /** A duplicate becomes a leader. */
    method Label(next: Node, ghost c: Context, ghost t: Tree)
      requires Threaded() && Labelled() && Open(c, t) == true && next in list
      modifies this`leaders, next`leader
      ensures Threaded() && Labelled() && Open(c, t) == true && leaders == old(leaders) + {next}
    {
      next.leader := true;
      leaders := leaders + {next};
    }

    lemma LabelsPassed(node: Node, hs: set<Node>)
      requires Labelled() && leaders - {node} == hs - {node}
      ensures forall y <- list :: y != node ==> (y.leader <==> y in hs)
    {
      assert forall y :: y != node ==> (y in leaders <==> y in leaders - {node}) && (y in hs <==> y in hs - {node});
    }

    lemma {:induction false} PromotedHeads(c: Context, t: Tree, next: Node, ds: seq<Node>)
      requires t.Fork? && Simple(Plug(c, t)) && next !in Heads(Plug(c, t))
      ensures Heads(Plug(c, Fork(t.left, next, ds, t.bal, t.right))) == Heads(Plug(c, t)) - {t.head} + {next}
      ensures next !in Heads(t) && next !in HeadsAround(c)
    {
      PlugSimple(c, t);
      PlugHeads(c, t);
      PlugHeads(c, Fork(t.left, next, ds, t.bal, t.right));
    }

    /** The first half of avl_delete for a leader with duplicates: the next node takes its place. */
    method Promote(node: Node, next: Node, ghost c: Context, ghost t: Tree) returns (ghost u: Tree)
      requires Threaded() && Labelled() && leaders == Heads(Plug(c, t)) && next !in leaders && next in list
      requires Open(c, t) && t.Fork? && t.head == node && Balanced(Plug(c, t)) && t.dups != []
      modifies this`root, this`leaders, leaders`parent, leaders`left, leaders`right, leaders`balance
      modifies next`parent, next`left, next`right, next`balance, next`leader
      ensures u == Plug(c, Fork(t.left, next, t.dups[1..], t.bal, t.right)) && Open(Top, u) == true && Balanced(u)
      ensures (Threaded() && Labelled()) == true && leaders - {node} == Heads(u) - {node}
    {
      PlugSimple(c, t);
      PromotedHeads(c, t, next, t.dups[1..]);
      Label(next, c, t);
      u := Succeed(node, next, c, t);
    }

    lemma BalancedStill(c: Context, t: Tree, next: Node, dups: seq<Node>)
      requires t.Fork? && Balanced(Plug(c, t))
      ensures Balanced(Plug(c, Fork(t.left, next, dups, t.bal, t.right)))
    {
      PlugBalanced(c, t);
      PlugBalanced(c, Fork(t.left, next, dups, t.bal, t.right));
    }

    method Succeed(node: Node, next: Node, ghost c: Context, ghost t: Tree) returns (ghost u: Tree)
      requires next in leaders && next !in Heads(t) && next !in HeadsAround(c)
      requires Open(c, t) == true && t.Fork? && t.head == node && Balanced(Plug(c, t)) && t.dups != []
      modifies this`root, leaders`parent, leaders`left, leaders`right, leaders`balance
      ensures u == Plug(c, Fork(t.left, next, t.dups[1..], t.bal, t.right)) && Open(Top, u) == true && Balanced(u)
    {
      ghost var s := Fork(t.left, next, t.dups[1..], t.bal, t.right);
      BalancedStill(c, t, next, t.dups[1..]);
      Replace(node, next, c, t, t.dups[1..]);
      Close(c, s);
      u := Plug(c, s);
    }

    lemma {:induction false} PlanPromote(c: Context, t: Tree)
      requires Orders(comp) && Listed() && allowDups && shape == Plug(c, t) && t.Fork? && t.dups != []
      ensures Reduced(comp, allowDups, list, |Flat(Prior(c, t))|,
              Walk(Plug(c, Fork(t.left, t.dups[0], t.dups[1..], t.bal, t.right))))
      ensures list[|Flat(Prior(c, t))|] == t.head
    {
      SplitAt(c, t);
      FlatAt(Prior(c, t), Run(t.head, t.dups), Later(c, t));
      SplitAt(c, Fork(t.left, t.dups[0], t.dups[1..], t.bal, t.right));
      LeaderGone(comp, Prior(c, t), Run(t.head, t.dups), Later(c, t));
    }

    method DeleteLeader(node: Node, next: Node, ghost c: Context, ghost t: Tree)
      requires Valid() && Open(c, t) && shape == Plug(c, t) && t.Fork? && t.head == node
      requires allowDups && t.dups != [] && next == t.dups[0] && next !in leaders && next in list
      modifies this`root, this`count, this`list, this`ring, this`shape, this`leaders, ring`prev, ring`next
      modifies leaders`parent, leaders`left, leaders`right, leaders`balance
      modifies next`parent, next`left, next`right, next`balance, next`leader
      ensures Valid() && shape == Plug(c, Fork(t.left, next, t.dups[1..], t.bal, t.right))
      ensures var k := |Flat(Prior(c, t))|;
              k < |old(list)| && old(list)[k] == node && list == old(list)[..k] + old(list)[k + 1..]
    {
      PlanPromote(c, t);
      ghost var u := Promote(node, next, c, t);
      LabelsPassed(node, Heads(u));
      Leave(node, |Flat(Prior(c, t))|, u);
    }

    /** The list position of a duplicate. */
    lemma {:induction false} DupAt(c: Context, t: Tree, i: nat) returns (k: nat)
      requires Listed() && shape == Plug(c, t) && t.Fork? && i < |t.dups|
      ensures k == |Flat(Prior(c, t))| + 1 + i && k < |list| && list[k] == t.dups[i]
    {
      k := |Flat(Prior(c, t))| + 1 + i;
      SplitAt(c, t);
      FlatAt(Prior(c, t), Run(t.head, t.dups), Later(c, t));
    }

    lemma {:induction false} PlanDropDup(c: Context, t: Tree, i: nat) returns (u: Tree)
      requires Orders(comp) && Planted() && Listed() && allowDups && shape == Plug(c, t) && t.Fork? && i < |t.dups|
      ensures Ready(u)
      ensures Reduced(comp, allowDups, list, |Flat(Prior(c, t))| + 1 + i, Walk(u))
    {
      var s := t.(dups := t.dups[..i] + t.dups[i + 1..]);
      u := Plug(c, s);
      DupsUnseen(c, t, s.dups);
      SplitAt(c, t);
      SplitAt(c, s);
      DupGone(comp, Prior(c, t), Run(t.head, t.dups), Later(c, t), i);
    }

    method DeleteDup(node: Node, ghost c: Context, ghost t: Tree, ghost i: nat) returns (ghost k: nat)
      requires Valid() && shape == Plug(c, t) && t.Fork? && i < |t.dups| && t.dups[i] == node && allowDups
      modifies this`count, this`list, this`ring, this`shape, this`leaders, ring`prev, ring`next
      ensures Valid() && leaders == old(leaders) && k < |old(list)| && old(list)[k] == node
      ensures list == old(list[..k] + list[k + 1..])
    {
      k := DupAt(c, t, i);
      ghost var u := PlanDropDup(c, t, i);
      Leave(node, k, u);
    }

    lemma {:induction false} LocateDup(x: Node) returns (c: Context, t: Tree, i: nat)
      requires Planted() && Listed() && x in list && x !in leaders
      ensures shape == Plug(c, t) && t.Fork? && i < |t.dups| && t.dups[i] == x && allowDups
    {
      var r := FlatFrom(Walk(shape), x);
      WalkHeads(shape);
      c, t := Locate(Top, shape, r.head);
      SameRun(c, t, r);
      i :| 0 <= i < |t.dups| && t.dups[i] == x;
    }

    lemma {:induction false} SameRun(c: Context, t: Tree, r: Run)
      requires t.Fork? && Simple(Plug(c, t)) && r in Walk(Plug(c, t)) && r.head == t.head
      ensures r == Run(t.head, t.dups)
    {
      SplitAt(c, t);
      Apart(c, t);
      RunListed(Prior(c, t), Run(t.head, t.dups), Later(c, t), r);
    }

    /** The list position and run of a leader that is to be deleted. */
    lemma {:induction false} LocateLeader(x: Node) returns (c: Context, t: Tree, k: nat)
      requires Valid() && x in leaders
      ensures shape == Plug(c, t) && t.Fork? && t.head == x && Open(c, t)
      ensures k == |Flat(Prior(c, t))| && k < |list| && list[k] == x
      ensures if t.dups == [] then k + 1 == |list| || list[k + 1].leader
              else k + 1 < |list| && list[k + 1] == t.dups[0] && !t.dups[0].leader && t.dups[0] !in leaders && allowDups
    {
      c, t := Locate(Top, shape, x);
      Reopen(c, t);
      RunInList(c, t);
      SplitAt(c, t);
      FlatAt(Prior(c, t), Run(t.head, t.dups), Later(c, t));
      k := |Flat(Prior(c, t))|;
      assert Run(t.head, t.dups) in Walk(shape);
    }

    /** avl_delete of a leader: the next of its duplicates is promoted, or its tree node goes. */
    method DeleteHead(node: Node)
      requires Valid() && node in list && node.leader
      modifies this`root, this`count, this`list, this`ring, this`shape, this`leaders, ring`prev, ring`next
      modifies leaders`parent, leaders`left, leaders`right, leaders`balance
      modifies list`parent, list`left, list`right, list`balance, list`leader
      ensures Valid() && list == Without(old(list), node)
    {
      ListDistinct();
      ghost var c, t, k := LocateLeader(node);
      Neighbours(k);
      WithoutAt(list, k);
      if allowDups && node.list.next != listHead && !node.list.next.owner.leader {
        DeleteLeader(node, node.list.next.owner, c, t);
      } else {
        DeleteLone(node, c, t);
      }
    }

    /** avl_delete of a duplicate: only the list changes. */
    method DeleteLater(node: Node)
      requires Valid() && node in list && !node.leader
      modifies this`count, this`list, this`ring, this`shape, this`leaders, ring`prev, ring`next
      ensures Valid() && leaders == old(leaders) && list == Without(old(list), node)
    {
      ListDistinct();
      ghost var c, t, i := LocateDup(node);
      ghost var k := DeleteDup(node, c, t, i);
      WithoutAt(old(list), k);
    }

    method DeleteMember(node: Node)
      requires Valid() && node in list
      modifies this`root, this`count, this`list, this`ring, this`shape, this`leaders, ring`prev, ring`next
      modifies leaders`parent, leaders`left, leaders`right, leaders`balance
      modifies list`parent, list`left, list`right, list`balance, list`leader
      ensures Valid() && list == Without(old(list), node)
      ensures (forall y <- leaders :: y in old(list)) && (forall y <- list :: y in old(list))
      ensures forall e <- ring :: e in old(ring)
    {
      Members();
      if node.leader {
        DeleteHead(node);
      } else {
        DeleteLater(node);
      }
      WithoutSome(old(list), node);
      Members();
    }

    /** avl_delete: the tree consists of what it consisted of. */
    method Delete(node: Node)
      requires Valid() && node in list
      modifies this`root, this`count, this`list, this`ring, this`shape, this`leaders, ring`prev, ring`next
      modifies leaders`parent, leaders`left, leaders`right, leaders`balance
      modifies list`parent, list`left, list`right, list`balance, list`leader
      ensures Valid() && list == Without(old(list), node)
      ensures (forall y <- leaders :: y in old(list)) && forall i :: 0 <= i < |list| ==> list[i] in old(list)
      ensures forall i :: 0 <= i < |ring| ==> ring[i] in old(ring)
    {
      ghost var nodes, entries := list, ring;
      DeleteMember(node);
      Each(list, nodes, {});
      Each(ring, entries, {});
    }

    /** In every reachable tree, a tree of height h holds at least Fib(h + 2) - 1 leaders. */
    lemma Shallow()
      requires Valid()
      ensures |leaders| + 1 >= Fib(Height(shape) + 2) && count == |list|
    {
      FewestLeaders(shape);
    }

    /** In every reachable tree, parent links invert child links, and a stored balance is the right height minus the
        left one and at most one off even. */
    lemma {:induction false} Links(x: Node) returns (t: Tree)
      requires Valid() && x in leaders
      ensures t.Fork? && t.head == x && x.left == Ptr(t.left) && x.right == Ptr(t.right)
      ensures (x.left != null ==> x.left in leaders && x.left.parent == x)
      ensures x.right != null ==> x.right in leaders && x.right.parent == x
      ensures -1 <= x.balance == Height(t.right) - Height(t.left) <= 1
    {
      var c;
      c, t := Locate(Top, shape, x);
      Reopen(c, t);
      PlugBalanced(c, t);
      PlugHeads(c, t);
      assert Rep(t.left, x) && Rep(t.right, x);
    }

    constructor (comp: Comparator, allowDups: bool)
      requires Orders(comp)
      ensures Valid() && list == [] && this.comp == comp && this.allowDups == allowDups
      ensures fresh(ring) && leaders == {}
    {
      this.comp, this.allowDups, root, count := comp, allowDups, null, 0;
      var h := new Entry();
      listHead := h;
      shape, list, leaders, ring := Leaf, [], {}, [h, h];
      new;
      h.next, h.prev := h, h;
    }
  }
}
