/** AVL trees as the users of libubox see them: what is in the list, and that the tree is right, but not how. */
module AvlIndex {
  import opened Common
  import opened AvlModel
  import opened AvlOrder
  import opened Avl

  /** The tree is right. Proofs about its users need not know what that means. */
  ghost predicate Right(t: AvlTree)
    reads t, t.leaders, t.list, t.ring
  {
    forall z :: Look(Trees, z) ==> t.Valid()
  }

  lemma Inside(t: AvlTree)
    requires Right(t)
    ensures t.Valid()
  {
    assert Look(Trees, 0);
  }

  /** The objects that a tree consists of. */
  ghost function Parts(t: AvlTree): set<object>
    reads t
  {
    {t} + t.leaders + (set i | 0 <= i < |t.list| :: t.list[i]) + set i | 0 <= i < |t.ring| :: t.ring[i]
  }

  method New(comp: Comparator, allowDups: bool) returns (t: AvlTree)
    requires Orders(comp)
    ensures Right(t) && fresh(t) && t.list == [] && t.comp == comp && t.allowDups == allowDups
    ensures fresh(Parts(t)) && fresh(t.ring) && t.leaders == {}
  {
    t := new AvlTree(comp, allowDups);
  }

  /** avl_insert */
  method Insert(t: AvlTree, x: Node) returns (ret: int)
    requires Right(t) && x !in t.list && x.list.owner == x
    modifies t, t.ring`prev, t.ring`next, t.leaders, x, x.list`prev, x.list`next
    ensures Right(t) && ret == if FirstEqual(t.comp, x.key, old(t.list)) != null && !t.allowDups then -1 else 0
    ensures t.list == if ret == 0 then SortedInsert(t.comp, old(t.list), x) else old(t.list)
    ensures Parts(t) <= old(Parts(t)) + {x, x.list}
  {
    Inside(t);
    ret := t.Insert(x);
  }

  /** avl_delete */
  method Delete(t: AvlTree, x: Node)
    requires Right(t) && x in t.list
    modifies t, t.ring`prev, t.ring`next, t.leaders, t.list
    ensures Right(t) && t.list == Without(old(t.list), x) && Parts(t) <= old(Parts(t))
  {
    Inside(t);
    t.Delete(x);
  }

  /** avl_find */
  method Find(t: AvlTree, key: Key) returns (r: Node?)
    requires Right(t)
    ensures r == FirstEqual(t.comp, key, t.list)
  {
    Inside(t);
    r := t.Find(key);
  }

  lemma ListDistinct(t: AvlTree)
    requires Right(t)
    ensures Distinct(t.list)
  {
    Inside(t);
    t.ListDistinct();
  }

  /** A call of avl_insert or avl_delete. */
  datatype Op = Put(x: Node) | Drop(x: Node)

  /** What a list becomes by a call. */
  ghost function Called(comp: Comparator, allowDups: bool, s: seq<Node>, op: Op): seq<Node> {
    match op
    case Put(x) => if FirstEqual(comp, x.key, s) != null && !allowDups then s else SortedInsert(comp, s, x)
    case Drop(x) => Without(s, x)
  }

  /** What it becomes by a run of calls. */
  ghost function After(comp: Comparator, allowDups: bool, s: seq<Node>, ops: seq<Op>): seq<Node> {
    if ops == [] then s
    else Called(comp, allowDups, After(comp, allowDups, s, ops[..|ops| - 1]), ops[|ops| - 1])
  }

  /** A node that is inserted is not in the list by then, and one that is deleted is. */
  ghost predicate Callable(comp: Comparator, allowDups: bool, s: seq<Node>, ops: seq<Op>) {
    forall k :: 0 <= k < |ops| ==> (ops[k].Drop? <==> ops[k].x in After(comp, allowDups, s, ops[..k]))
  }

  lemma NextCall(comp: Comparator, allowDups: bool, s: seq<Node>, ops: seq<Op>, k: nat)
    requires Callable(comp, allowDups, s, ops) && k < |ops|
    ensures ops[k] in ops && (ops[k].Drop? <==> ops[k].x in After(comp, allowDups, s, ops[..k]))
    ensures After(comp, allowDups, s, ops[..k + 1])
            == Called(comp, allowDups, After(comp, allowDups, s, ops[..k]), ops[k])
  {
    assert ops[..k + 1][..k] == ops[..k];
  }

  method Call(t: AvlTree, op: Op)
    requires Right(t) && (op.Drop? <==> op.x in t.list) && op.x.list.owner == op.x
    modifies t, t.ring`prev, t.ring`next, t.leaders, t.list, op.x, op.x.list`prev, op.x.list`next
    ensures Right(t) && t.list == Called(t.comp, t.allowDups, old(t.list), op)
    ensures Parts(t) <= old(Parts(t)) + {op.x, op.x.list}
  {
    match op
    case Put(x) => var _ := Insert(t, x);
    case Drop(x) => Delete(t, x);
  }

  /** Any run of insertions and deletions, of nodes in a given region, does to the tree what it does to a sorted
      list. */
  method Run(t: AvlTree, ops: seq<Op>, ghost region: set<object>)
    requires Right(t) && Callable(t.comp, t.allowDups, t.list, ops) && Parts(t) <= region
    requires forall op <- ops :: op.x.list.owner == op.x && op.x in region && op.x.list in region
    modifies region
    ensures Right(t) && t.list == After(t.comp, t.allowDups, old(t.list), ops) && Parts(t) <= region
  {
    for k := 0 to |ops|
      invariant Right(t) && t.list == After(t.comp, t.allowDups, old(t.list), ops[..k]) && Parts(t) <= region
      invariant forall op <- ops :: op.x.list.owner == op.x
    {
      RunOn(t, ops, k, old(t.list), region);
    }
    assert ops[..|ops|] == ops;
  }

  method RunOn(t: AvlTree, ops: seq<Op>, k: nat, ghost s: seq<Node>, ghost region: set<object>)
    requires Right(t) && Callable(t.comp, t.allowDups, s, ops) && Parts(t) <= region
    requires forall op <- ops :: op.x.list.owner == op.x && op.x in region && op.x.list in region
    requires k < |ops| && t.list == After(t.comp, t.allowDups, s, ops[..k])
    modifies region
    ensures Right(t) && t.list == After(t.comp, t.allowDups, s, ops[..k + 1]) && Parts(t) <= region
    ensures forall op <- ops :: op.x.list.owner == op.x
  {
    NextCall(t.comp, t.allowDups, s, ops, k);
    Call(t, ops[k]);
  }
}
