/** The tree of object paths of ubusd (ubusd_obj.c), as a map from objects to paths. */
module UbusDirectory {
  import opened Common
  import opened AvlModel
  import opened AvlOrder
  import opened Avl
  import opened AvlIndex
  import opened UbusOrder
  import opened UbusEvent
  import L = UbusLookup

  /** Each object with a path has a node with it in the list, and each node of the list belongs to one object. */
  ghost predicate Matched(node: map<nat, Node>, owner: map<Node, nat>, names: map<nat, string>, list: seq<Node>) {
    && node.Keys == names.Keys
    && (forall o <- node :: node[o] in list && node[o].key == Text(names[o]) && node[o] in owner && owner[node[o]] == o)
    && (forall n <- list :: n.key.Text? && n in owner && owner[n] in node && node[owner[n]] == n)
  }

  ghost predicate Filed(node: map<nat, Node>, owner: map<Node, nat>, names: map<nat, string>, list: seq<Node>) {
    forall z {:trigger Look(Files, z)} :: Look(Files, z) ==> Matched(node, owner, names, list) && Unique(names)
  }

  lemma FiledIs(node: map<nat, Node>, owner: map<Node, nat>, names: map<nat, string>, list: seq<Node>)
    ensures Filed(node, owner, names, list) <==> Matched(node, owner, names, list) && Unique(names)
  {
    assert Look(Files, 0);
  }

  lemma FiledMore(node: map<nat, Node>, owner: map<Node, nat>, names: map<nat, string>, list: seq<Node>, o: nat,
      n: Node)
    requires Filed(node, owner, names, list) && o !in names && n !in list && n.key.Text? && n.key.text !in names.Values
    ensures Filed(node[o := n], owner[n := o], names[o := n.key.text], SortedInsert(KeyCmp, list, n))
  {
    FiledIs(node, owner, names, list);
    var more := SortedInsert(KeyCmp, list, n);
    forall m | m in more
      ensures m in list || m == n
    {
      InsertAdds(KeyCmp, list, n, m);
    }
    forall m | m in list || m == n
      ensures m in more
    {
      InsertAdds(KeyCmp, list, n, m);
    }
    FiledIs(node[o := n], owner[n := o], names[o := n.key.text], more);
  }

  lemma FiledLess(node: map<nat, Node>, owner: map<Node, nat>, names: map<nat, string>, list: seq<Node>, o: nat)
    requires Filed(node, owner, names, list) && o in node && Distinct(list)
    ensures node[o] in list && Filed(node - {o}, owner - {node[o]}, names - {o}, Without(list, node[o]))
  {
    FiledIs(node, owner, names, list);
    WithoutOne(list, node[o]);
    var less := Without(list, node[o]);
    assert forall m <- less :: m in list && m != node[o];
    FiledIs(node - {o}, owner - {node[o]}, names - {o}, less);
  }

  lemma {:induction false} FirstEqualIs(key: string, list: seq<Node>)
    requires L.Texts(list)
    ensures var n := FirstEqual(KeyCmp, Text(key), list);
            if n == null then forall m <- list :: m.key != Text(key) else n in list && n.key == Text(key)
  {
    if list != [] {
      assert list[0] in list && forall m <- list[1..] :: m in list;
      StrCmpSigns(key, list[0].key.text);
      FirstEqualIs(key, list[1..]);
      assert list == [list[0]] + list[1..];
    }
  }

  /** A search finds a node exactly if an object has the path, and it is that of this object. */
  lemma PathFound(node: map<nat, Node>, owner: map<Node, nat>, names: map<nat, string>, list: seq<Node>, key: string)
    requires Filed(node, owner, names, list)
    ensures var n := FirstEqual(KeyCmp, Text(key), list);
            if n == null then key !in names.Values else n in owner && owner[n] in names && names[owner[n]] == key
  {
    FiledIs(node, owner, names, list);
    FirstEqualIs(key, list);
    var n := FirstEqual(KeyCmp, Text(key), list);
    if n == null {
      forall o | o in names
        ensures names[o] != key
      {
        assert node[o] in list;
      }
    } else {
      assert node[owner[n]] == n;
    }
  }

  /** No two objects have the same path. */
  ghost predicate Unique(names: map<nat, string>) {
    forall o, q {:trigger Two(o, q)} :: Two(o, q) && o in names && q in names && names[o] == names[q] ==> o == q
  }

  /** The path is what is looked for: anything, a path, or with a star one that starts so. */
  predicate Asked(path: Maybe<string>, name: string) {
    path.None? || if Starred(path.value) then Stem(path.value) <= name else name == path.value
  }

  /** Said with the characters of the path. */
  lemma AskedMeans(path: string, name: string)
    ensures Asked(None, name)
    ensures var n := |path| - 1;
            Asked(Some(path), name)
            <==> if n >= 0 && path[n] == '*' then n <= |name| && name[..n] == path[..n] else name == path
  {
    assert Starred(path) ==> (Stem(path) <= name <==> |path| - 1 <= |name| && name[..|path| - 1] == path[..|path| - 1]);
  }

  lemma {:induction false} PrefixHas(s: seq<Node>, p: string, n: Node)
    ensures n in L.WithPrefix(s, p) <==> n in s && n.key.Text? && p <= n.key.text
  {
    if s != [] {
      var k := |s| - 1;
      PrefixHas(s[..k], p, n);
      assert s == s[..k] + [s[k]];
    }
  }

  lemma {:induction false} PrefixDistinct(s: seq<Node>, p: string)
    requires Distinct(s)
    ensures Distinct(L.WithPrefix(s, p))
  {
    if s != [] {
      var k := |s| - 1;
      PrefixDistinct(s[..k], p);
      PrefixHas(s[..k], p, s[k]);
      assert s[k] !in s[..k];
    }
  }

  /** sent are the nodes of the list whose path is asked for, each once. */
  ghost predicate Found(sent: seq<Node>, path: Maybe<string>, list: seq<Node>) {
    && Distinct(sent) && (forall n <- sent :: n in list && n.key.Text? && Asked(path, n.key.text))
    && (forall n <- list :: n.key.Text? && Asked(path, n.key.text) ==> n in sent)
  }

  function Owners(sent: seq<Node>, owner: map<Node, nat>): seq<nat>
    requires forall n <- sent :: n in owner
  {
    seq(|sent|, i requires 0 <= i < |sent| => assert sent[i] in sent; owner[sent[i]])
  }

  lemma PrefixFound(list: seq<Node>, path: string)
    requires Distinct(list) && Starred(path)
    ensures Found(L.WithPrefix(list, Stem(path)), Some(path), list)
  {
    var sent := L.WithPrefix(list, Stem(path));
    PrefixDistinct(list, Stem(path));
    forall n | n in sent || n in list
      ensures n in sent <==> n in list && n.key.Text? && Stem(path) <= n.key.text
    {
      PrefixHas(list, Stem(path), n);
    }
  }

  /** No two nodes have the same path. */
  lemma OneNode(node: map<nat, Node>, owner: map<Node, nat>, names: map<nat, string>, list: seq<Node>, m: Node, n: Node)
    requires Matched(node, owner, names, list) && Unique(names) && m in list && n in list && m.key == n.key
    ensures m == n
  {
    assert Two(owner[m], owner[n]);
  }

  lemma OneFound(node: map<nat, Node>, owner: map<Node, nat>, names: map<nat, string>, list: seq<Node>, path: string)
    requires Matched(node, owner, names, list) && Unique(names) && !Starred(path)
    ensures Found(L.One(FirstEqual(KeyCmp, Text(path), list)), Some(path), list)
  {
    FirstEqualIs(path, list);
    var n := FirstEqual(KeyCmp, Text(path), list);
    forall m | m in list && m.key == Text(path)
      ensures m == n
    {
      OneNode(node, owner, names, list, m, n);
    }
  }

  /** What ubusd_handle_lookup sends are the objects whose path is asked for. */
  lemma SentFound(node: map<nat, Node>, owner: map<Node, nat>, names: map<nat, string>, list: seq<Node>,
      path: Maybe<string>, sent: seq<Node>)
    requires Matched(node, owner, names, list) && Unique(names) && Distinct(list)
    requires path.None? ==> sent == list
    requires path.Some? ==> if Starred(path.value) then sent == L.WithPrefix(list, Stem(path.value))
                            else sent == L.One(FirstEqual(KeyCmp, Text(path.value), list))
    ensures forall n <- sent :: n in owner
    ensures Lists(Owners(sent, owner), set o | o in names && Asked(path, names[o]))
  {
    if path.Some? {
      if Starred(path.value) {
        PrefixFound(list, path.value);
      } else {
        OneFound(node, owner, names, list, path.value);
      }
    }
    assert Found(sent, path, list);
    FoundOwners(node, owner, names, list, path, sent);
  }

  lemma FoundOwners(node: map<nat, Node>, owner: map<Node, nat>, names: map<nat, string>, list: seq<Node>,
      path: Maybe<string>, sent: seq<Node>)
    requires Matched(node, owner, names, list) && Found(sent, path, list)
    ensures forall n <- sent :: n in owner
    ensures Lists(Owners(sent, owner), set o | o in names && Asked(path, names[o]))
  {
    var found := Owners(sent, owner);
    forall o | o in names && Asked(path, names[o])
      ensures o in found
    {
      assert node[o] in sent;
      var i :| 0 <= i < |sent| && sent[i] == node[o];
      assert found[i] == o;
    }
    forall i | 0 <= i < |found|
      ensures found[i] in names && Asked(path, names[found[i]]) && node[found[i]] == sent[i]
    {
      assert sent[i] in sent;
    }
  }

  class Directory {
    const tree: AvlTree
    var node: map<nat, Node>
    var owner: map<Node, nat>
    /** The paths of the objects that have one. */
    ghost var names: map<nat, string>

    constructor ()
      ensures Valid() && names == map[] && fresh(Repr())
    {
      KeysOrdered();
      var t := New(KeyCmp, false);
      tree := t;
      node, owner, names := map[], map[], map[];
    }

    ghost function Repr(): set<object>
      reads this, tree
    {
      {this} + Parts(tree)
    }

    ghost predicate Valid()
      reads this, tree, tree.leaders, tree.list, tree.ring
    {
      (&& Right(tree) && tree.comp == KeyCmp && !tree.allowDups
       && Filed(node, owner, names, tree.list)) == true
    }

    /** The tree has changed, and these are the objects and paths now. */
    method Note(node': map<nat, Node>, owner': map<Node, nat>, ghost names': map<nat, string>)
      requires Right(tree) == true && tree.comp == KeyCmp && !tree.allowDups
      requires Filed(node', owner', names', tree.list) == true
      modifies this`node, this`owner, this`names
      ensures Valid() && names == names'
    {
      node, owner, names := node', owner', names';
    }

    /** avl_insert of the path of an object: it fails exactly if the path is taken. */
    method Enter(o: nat, path: string) returns (ok: bool)
      requires Valid() && o !in names
      modifies Repr()
      ensures Valid() && fresh(Repr() - old(Repr())) && ok == (path !in old(names).Values)
      ensures names == if ok then old(names)[o := path] else old(names)
    {
      var n := new Node(Text(path));
      ok := File(o, n);
    }

    method File(o: nat, n: Node) returns (ok: bool)
      requires Valid() && o !in names && n.key.Text? && n !in tree.list && n.list.owner == n
      modifies this`node, this`owner, this`names, tree, tree.ring, tree.leaders, n, n.list
      ensures Valid() && Repr() <= old(Repr()) + {n, n.list} && ok == (n.key.text !in old(names).Values)
      ensures names == if ok then old(names)[o := n.key.text] else old(names)
    {
      ghost var list := tree.list;
      PathFound(node, owner, names, list, n.key.text);
      var r := Insert(tree, n);
      if r != 0 {
        return false;
      }
      FiledMore(node, owner, names, list, o, n);
      Note(node[o := n], owner[n := o], names[o := n.key.text]);
      return true;
    }

    /** avl_delete of the path of an object, if it has one */
    method Leave(o: nat)
      requires Valid()
      modifies Repr()
      ensures Valid() && Repr() <= old(Repr()) && names == old(names) - {o}
    {
      FiledIs(node, owner, names, tree.list);
      if o !in node {
        assert names - {o} == names;
        return;
      }
      ghost var list := tree.list;
      var n := node[o];
      ListDistinct(tree);
      FiledLess(node, owner, names, list, o);
      Delete(tree, n);
      Note(node - {o}, owner - {n}, names - {o});
    }

    /** ubusd_handle_lookup: exactly the objects whose path is asked for, each once. */
    method Lookup(path: Maybe<string>) returns (found: seq<nat>)
      requires Valid()
      ensures Lists(found, set o | o in names && Asked(path, names[o]))
    {
      Inside(tree);
      ListDistinct(tree);
      FiledIs(node, owner, names, tree.list);
      var sent, _ := L.Lookup(tree, path);
      SentFound(node, owner, names, tree.list, path, sent);
      found := Owners(sent, owner);
    }
  }
}
