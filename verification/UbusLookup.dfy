/** Looking objects up by path (ubusd_handle_lookup): a wildcard visits only a range of the sorted paths. */
module UbusLookup {
  import opened Common
  import opened AvlModel
  import opened AvlOrder
  import opened Avl
  import opened UbusOrder

  /** At most one node. */
  ghost function One(n: Node?): seq<Node> { if n == null then [] else [n] }

  /** The nodes whose path starts with p, in order. */
  ghost function WithPrefix(s: seq<Node>, p: string): seq<Node> {
    if s == [] then []
    else
      var n := |s| - 1;
      WithPrefix(s[..n], p) + if s[n].key.Text? && p <= s[n].key.text then [s[n]] else []
  }

  ghost predicate Texts(s: seq<Node>) { forall n <- s :: n.key.Text? }

  /** Nodes before the first path that is not before p do not start with p. */
  lemma {:induction false} NoneBefore(s: seq<Node>, p: string, k: nat)
    requires Texts(s) && k <= |s| && forall i :: 0 <= i < k ==> StrCmp(p, s[i].key.text) > 0
    ensures WithPrefix(s[..k], p) == []
    decreases k
  {
    if k > 0 {
      NoneBefore(s, p, k - 1);
      assert s[..k][..k - 1] == s[..k - 1];
      if p <= s[k - 1].key.text {
        PrefixFirst(p, s[k - 1].key.text);
      }
    }
  }

  /** Once a path after p does not start with p, no later one does. */
  lemma {:induction false} NoneAfter(s: seq<Node>, p: string, i: nat, k: nat)
    requires Texts(s) && Sorted(KeyCmp, s) && i < k <= |s|
    requires StrCmp(p, s[i].key.text) <= 0 && !(p <= s[i].key.text)
    ensures WithPrefix(s[..k], p) == WithPrefix(s[..i], p)
    decreases k
  {
    assert s[..k][..k - 1] == s[..k - 1];
    assert s[i] in s && s[k - 1] in s;
    if k - 1 > i {
      NoneAfter(s, p, i, k - 1);
      assert Two(i, k - 1);
      if p <= s[k - 1].key.text {
        PrefixRange(p, s[i].key.text, s[k - 1].key.text);
      }
    }
  }

  /** Where the first path that is not before k is. */
  lemma {:induction false} FirstAtLeastIs(comp: Comparator, k: Key, s: seq<Node>) returns (i: nat)
    ensures i <= |s| && FirstAtLeast(comp, k, s) == (if i < |s| then s[i] else null)
    ensures (i < |s| ==> comp(k, s[i].key) <= 0) && forall j :: 0 <= j < i ==> comp(k, s[j].key) > 0
  {
    if s == [] || comp(k, s[0].key) <= 0 {
      i := 0;
    } else {
      i := FirstAtLeastIs(comp, k, s[1..]);
      assert forall j :: 0 < j < |s| ==> s[j] == s[1..][j - 1];
      i := i + 1;
    }
  }

  /** A tree of paths, as ubusd keeps it. */
  ghost predicate Paths(t: AvlTree)
    reads t, t.leaders, t.list, t.ring
  {
    t.Valid() && t.comp == KeyCmp && Texts(t.list)
  }

  lemma RangeStep(s: seq<Node>, p: string, k: nat)
    requires Texts(s) && Sorted(KeyCmp, s) && k < |s| && s[k].key.Text? && p <= s[k].key.text
    requires StrCmp(p, s[k].key.text) <= 0
    ensures WithPrefix(s[..k + 1], p) == WithPrefix(s[..k], p) + [s[k]]
    ensures k + 1 < |s| ==> s[k + 1].key.Text? && StrCmp(p, s[k + 1].key.text) <= 0
    ensures k + 1 == |s| ==> s[..k + 1] == s
  {
    assert s[..k + 1][..k] == s[..k];
    if k + 1 < |s| {
      assert s[k + 1] in s && Two(k, k + 1);
      StrCmpFollows(p, s[k].key.text, s[k + 1].key.text);
    }
  }

  lemma RangeEnd(s: seq<Node>, p: string, k: nat)
    requires Texts(s) && Sorted(KeyCmp, s) && k < |s| && s[k].key.Text? && !(p <= s[k].key.text)
    requires StrCmp(p, s[k].key.text) <= 0
    ensures WithPrefix(s, p) == WithPrefix(s[..k], p)
  {
    NoneAfter(s, p, k, |s|);
    assert s[..|s|] == s;
  }

  lemma {:induction false} PathsSorted(t: AvlTree)
    requires Paths(t)
    ensures Sorted(KeyCmp, t.list)
  {
    FlatSorted(KeyCmp, Walk(t.shape));
  }

  /** avl_next_element, or null at the last element */
  method NextNode(t: AvlTree, node: Node, ghost k: nat) returns (n: Node?)
    requires t.Threaded() && k < |t.list| && node == t.list[k]
    ensures n == if k + 1 < |t.list| then t.list[k + 1] else null
  {
    t.Neighbours(k);
    n := if node.list.next == t.listHead then null else node.list.next.owner;
  }

  /** The loop of ubusd_handle_lookup from the i-th path on, which is the first not before p. */
  method Range(t: AvlTree, p: string, first: Node, ghost i: nat) returns (sent: seq<Node>)
    requires t.Threaded() && Texts(t.list) && Sorted(KeyCmp, t.list) && i < |t.list| && first == t.list[i]
    requires first.key.Text? && StrCmp(p, first.key.text) <= 0 && WithPrefix(t.list[..i], p) == []
    ensures sent == WithPrefix(t.list, p)
  {
    ghost var all := t.list;
    sent := [];
    var node := first;
    ghost var k := i;
    while p <= node.key.text
      invariant i <= k < |all| && node == all[k] && node.key.Text? && StrCmp(p, node.key.text) <= 0
      invariant sent == WithPrefix(all[..k], p)
      decreases |all| - k
    {
      sent := sent + [node];
      RangeStep(all, p, k);
      var next := NextNode(t, node, k);
      if next == null {
        return;
      }
      node, k := next, k + 1;
    }
    RangeEnd(all, p, k);
  }

  /** What avl_find_ge_element finds leaves no object under the prefix behind. */
  lemma {:induction false} StartsHere(s: seq<Node>, p: string) returns (i: nat)
    requires Texts(s)
    ensures i <= |s| && FirstAtLeast(KeyCmp, Text(p), s) == (if i < |s| then s[i] else null)
    ensures WithPrefix(s[..i], p) == [] && (i == |s| ==> WithPrefix(s, p) == [])
    ensures i < |s| ==> s[i].key.Text? && StrCmp(p, s[i].key.text) <= 0
  {
    i := FirstAtLeastIs(KeyCmp, Text(p), s);
    assert forall j :: 0 <= j < |s| ==> s[j] in s;
    NoneBefore(s, p, i);
    assert s[..|s|] == s;
  }

  /** ubusd_handle_lookup with a path that ends in a star: exactly the objects under the prefix, in order. */
  method LookupPrefix(t: AvlTree, p: string) returns (sent: seq<Node>, found: bool)
    requires Paths(t)
    ensures sent == WithPrefix(t.list, p) && (found <==> sent != [])
  {
    ghost var i := StartsHere(t.list, p);
    var first := t.FindGreaterEqual(Text(p));
    if first == null {
      return [], false;
    }
    PathsSorted(t);
    sent := Range(t, p, first, i);
    found := sent != [];
  }

  /** avl_for_each_element over the paths */
  method LookupAll(t: AvlTree) returns (sent: seq<Node>)
    requires Paths(t)
    ensures sent == t.list
  {
    ghost var all, k := t.list, 0;
    t.FirstInList();
    sent := [];
    var node: Node? := if t.listHead.next == t.listHead then null else t.listHead.next.owner;
    while node != null
      invariant k <= |all| && sent == all[..k] && node == if k < |all| then all[k] else null
      decreases |all| - k
    {
      sent := sent + [node];
      node := NextNode(t, node, k);
      k := k + 1;
    }
  }

  /** ubusd_handle_lookup: all objects, one object, or those under a prefix. */
  method Lookup(t: AvlTree, path: Maybe<string>) returns (sent: seq<Node>, found: bool)
    requires Paths(t)
    ensures path.None? ==> sent == t.list && found
    ensures path.Some? ==> (found <==> sent != [])
    ensures path.Some? ==>
              var p := path.value;
              if p != "" && p[|p| - 1] == '*' then sent == WithPrefix(t.list, p[..|p| - 1])
              else sent == One(FirstEqual(KeyCmp, Text(p), t.list))
  {
    if path.None? {
      sent := LookupAll(t);
      return sent, true;
    }
    var name, len := path.value, |path.value|;
    if name == "" || name[len - 1] != '*' {
      var n := t.Find(Text(name));
      return if n == null then [] else [n], n != null;
    }
    sent, found := LookupPrefix(t, name[..len - 1]);
  }
}
