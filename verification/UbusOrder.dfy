/** The order of the keys in the trees of ubusd: strcmp on strings and numeric order on ids. */
module UbusOrder {
  import opened AvlModel

  /** strcmp, up to the size of the result */
  function StrCmp(a: string, b: string): int {
    if a == "" then (if b == "" then 0 else -1)
    else if b == "" then 1
    else if a[0] != b[0] then a[0] as int - b[0] as int
    else StrCmp(a[1..], b[1..])
  }

  /** avl_strcmp and ubus_cmp_id; a tree holds keys of one kind. */
  function KeyCmp(a: Key, b: Key): int {
    match (a, b)
    case (Text(s), Text(t)) => StrCmp(s, t)
    case (Id(m), Id(n)) => m - n
    case (Text(_), Id(_)) => -1
    case (Id(_), Text(_)) => 1
  }

  lemma {:induction false} StrCmpSigns(a: string, b: string)
    ensures StrCmp(a, b) < 0 <==> StrCmp(b, a) > 0
    ensures StrCmp(a, b) == 0 <==> a == b
  {
    if a != "" && b != "" && a[0] == b[0] {
      StrCmpSigns(a[1..], b[1..]);
      assert a == [a[0]] + a[1..] && b == [b[0]] + b[1..];
    }
  }

  lemma {:induction false} StrCmpFollows(a: string, b: string, c: string)
    requires StrCmp(a, b) <= 0 && StrCmp(b, c) <= 0
    ensures StrCmp(a, c) <= 0
  {
    if a != "" && b != "" && c != "" && a[0] == b[0] == c[0] {
      StrCmpFollows(a[1..], b[1..], c[1..]);
    }
  }

  /** Strings are in the order of their first characters that differ, and a string comes after those it starts with. */
  lemma {:induction false} StrCmpDecides(p: string, a: string, b: string)
    requires b != "" && (a == "" || a[0] < b[0])
    ensures StrCmp(p + a, p + b) < 0
  {
    if p == "" {
      assert p + a == a && p + b == b;
    } else {
      assert (p + a)[1..] == p[1..] + a && (p + b)[1..] == p[1..] + b;
      StrCmpDecides(p[1..], a, b);
    }
  }

  /** The comparators of ubusd are what avl.c needs. */
  lemma {:induction false} KeysOrdered()
    ensures Orders(KeyCmp)
  {
    forall a: Key, b: Key
      ensures KeyCmp(a, b) < 0 <==> KeyCmp(b, a) > 0
    {
      if a.Text? && b.Text? {
        StrCmpSigns(a.text, b.text);
        StrCmpSigns(b.text, a.text);
      }
    }
    forall a: Key, b: Key, c: Key {:trigger Chain(a, b, c)} | Chain(a, b, c) && KeyCmp(a, b) <= 0 && KeyCmp(b, c) <= 0
      ensures KeyCmp(a, c) <= 0
    {
      if a.Text? && b.Text? && c.Text? {
        StrCmpFollows(a.text, b.text, c.text);
      }
    }
  }

  // ---- prefixes ----

  /** The number of leading characters two strings share. */
  function Shared(a: string, b: string): (n: nat)
    ensures n <= |a| && n <= |b|
  {
    if a == "" || b == "" || a[0] != b[0] then 0 else 1 + Shared(a[1..], b[1..])
  }

  lemma {:induction false} SharedAll(a: string, b: string)
    ensures Shared(a, b) == |b| <==> b <= a
  {
    if a != "" && b != "" && a[0] == b[0] {
      SharedAll(a[1..], b[1..]);
      assert a == [a[0]] + a[1..] && b == [b[0]] + b[1..];
    }
  }

  lemma {:induction false} PrefixFirst(p: string, s: string)
    requires p <= s
    ensures StrCmp(p, s) <= 0
  {
    if p != "" {
      assert p[1..] <= s[1..];
      PrefixFirst(p[1..], s[1..]);
    }
  }

  /** Where a later key shares less with id than an earlier one, it is past id. */
  lemma {:induction false} SharesLess(id: string, k: string, l: string)
    requires StrCmp(k, l) <= 0 && Shared(id, l) < Shared(id, k)
    ensures StrCmp(id, l) < 0
  {
    if l != "" && l[0] == id[0] {
      SharesLess(id[1..], k[1..], l[1..]);
    }
  }

  /** A key that is past id starts no prefix of id, nor does any later one. */
  lemma PastIsOver(id: string, l: string, m: string)
    requires StrCmp(id, l) < 0 && StrCmp(l, m) <= 0
    ensures !(m <= id)
  {
    if m <= id {
      PrefixFirst(m, id);
      StrCmpFollows(l, m, id);
      StrCmpSigns(id, l);
    }
  }

  /** A key that starts with p is not before p; a key after p that does not start with p is past all that do. */
  lemma {:induction false} PrefixRange(p: string, k: string, l: string)
    requires StrCmp(p, k) <= 0 && StrCmp(k, l) <= 0 && p <= l
    ensures p <= k
  {
    if p != "" {
      assert p[0] == l[0] && p[1..] <= l[1..];
      if k != "" && k[0] == p[0] {
        PrefixRange(p[1..], k[1..], l[1..]);
        assert p == [p[0]] + p[1..] && k == [k[0]] + k[1..];
      }
    }
  }
}
