/** The circular list threaded through all nodes of an AVL tree (list.h). */
module AvlList {
  import opened AvlModel

  /** The entries r, starting and ending at the same list head, are linked in both directions. */
  ghost predicate Ring(r: seq<Entry>)
    reads r`prev, r`next
  {
    && |r| >= 2 && r[0] == r[|r| - 1]
    && (forall i, j :: 0 <= i < j < |r| - 1 ==> r[i] != r[j])
    && (forall i :: 0 <= i < |r| - 1 ==> r[i].next == r[i + 1])
    && (forall i :: 0 < i < |r| ==> r[i].prev == r[i - 1])
  }

  /** r is the list head, the entries of s in order, and the list head again. */
  ghost predicate Around(r: seq<Entry>, head: Entry, s: seq<Node>) {
    |r| == |s| + 2 && r[0] == r[|s| + 1] == head && forall i :: 0 < i <= |s| ==> r[i] == s[i - 1].list
  }

  /** Every entry but the list head knows its node. */
  ghost predicate Owned(r: seq<Entry>, s: seq<Node>)
    requires |r| == |s| + 2
    reads r`owner
  {
    r[0].owner == null && forall i :: 0 < i <= |s| ==> r[i].owner == s[i - 1]
  }

  lemma Spliced(r: seq<Entry>, head: Entry, s: seq<Node>, x: Node, k: nat)
    requires Around(r, head, s) && Owned(r, s) && k <= |s| && x.list.owner == x
    ensures var r', s' := r[..k + 1] + [x.list] + r[k + 1..], s[..k] + [x] + s[k..];
            Around(r', head, s') && Owned(r', s')
  {
    var r', s' := r[..k + 1] + [x.list] + r[k + 1..], s[..k] + [x] + s[k..];
    forall i | 0 < i <= |s'|
      ensures r'[i] == s'[i - 1].list && r'[i].owner == s'[i - 1]
    {
      if i > k + 1 {
        assert r'[i] == r[i - 1] && s'[i - 1] == s[i - 2];
      }
    }
  }

  lemma Cut(r: seq<Entry>, head: Entry, s: seq<Node>, k: nat)
    requires Around(r, head, s) && Owned(r, s) && k < |s|
    ensures var r', s' := r[..k + 1] + r[k + 2..], s[..k] + s[k + 1..];
            Around(r', head, s') && Owned(r', s')
  {
    var r', s' := r[..k + 1] + r[k + 2..], s[..k] + s[k + 1..];
    forall i | 0 < i <= |s'|
      ensures r'[i] == s'[i - 1].list && r'[i].owner == s'[i - 1]
    {
      if i > k {
        assert r'[i] == r[i + 1] && s'[i - 1] == s[i];
      }
    }
  }

  /** _list_add */
  method ListAdd(e: Entry, prev: Entry, next: Entry, ghost r: seq<Entry>, ghost k: nat)
    requires Ring(r) && k + 1 < |r| && e !in r && prev == r[k] && next == r[k + 1]
    modifies prev`next, next`prev, e`prev, e`next
    ensures Ring(r[..k + 1] + [e] + r[k + 1..])
  {
    next.prev := e;
    e.next := next;
    e.prev := prev;
    prev.next := e;
  }

  /** list_del */
  method ListDel(e: Entry, ghost r: seq<Entry>, ghost k: nat)
    requires Ring(r) && 0 < k < |r| - 1 && e == r[k]
    modifies r`prev, r`next
    ensures Ring(r[..k] + r[k + 1..])
  {
    assert e.next == r[k + 1] && e.prev == r[k - 1];
    e.next.prev := e.prev;
    e.prev.next := e.next;
    e.next, e.prev := null, null;
  }
}
