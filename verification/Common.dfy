/** Small things that several modules share. */
module Common {
  datatype Maybe<T> = None | Some(value: T)

  predicate Distinct<T(==)>(s: seq<T>) { forall i, j :: 0 <= i < j < |s| ==> s[i] != s[j] }

  /** s without the first x in it. */
  function Without<T(==)>(s: seq<T>, x: T): seq<T> {
    if s == [] then [] else if s[0] == x then s[1..] else [s[0]] + Without(s[1..], x)
  }

  lemma {:induction false} WithoutOne<T>(s: seq<T>, x: T)
    requires Distinct(s) && x in s
    ensures var r := Without(s, x);
            |r| == |s| - 1 && Distinct(r) && (forall y <- r :: y in s && y != x) && forall y <- s :: y != x ==> y in r
  {
    if s[0] != x {
      var t := s[1..];
      assert forall y :: y in s <==> y == s[0] || y in t;
      WithoutOne(t, x);
      var r := Without(t, x);
      assert forall i :: 0 <= i < |r| ==> r[i] in r;
      assert s[0] !in t;
    } else {
      assert forall y :: y in s <==> y == s[0] || y in s[1..];
    }
  }

  lemma {:induction false} WithoutSome<T>(s: seq<T>, x: T)
    ensures forall y <- Without(s, x) :: y in s
  {
    if s != [] && s[0] != x {
      WithoutSome(s[1..], x);
    }
  }

  lemma {:induction false} WithoutAt<T>(s: seq<T>, k: nat)
    requires k < |s| && Distinct(s)
    ensures Without(s, s[k]) == s[..k] + s[k + 1..]
  {
    if k > 0 {
      WithoutAt(s[1..], k - 1);
      assert s[1..][..k - 1] == s[1..k] && [s[0]] + s[1..k] == s[..k];
    }
  }

  lemma {:induction false} WithoutNone<T>(s: seq<T>, x: T)
    requires x !in s
    ensures Without(s, x) == s
  {
    if s != [] {
      WithoutNone(s[1..], x);
    }
  }

  /** Definitions that proofs use by their names only, until one of them says Look. */
  datatype Hidden = Trees | Files | Objects | Clients | Memory | Pending

  ghost predicate Look(what: Hidden, z: int) { true }

  /** Names two positions of a sequence. */
  ghost predicate Two(i: int, j: int) { true }

  lemma Each<T>(s: seq<T>, t: seq<T>, more: set<T>)
    requires forall x <- s :: x in t || x in more
    ensures forall i :: 0 <= i < |s| ==> s[i] in t || s[i] in more
  {
    assert forall i :: 0 <= i < |s| ==> s[i] in s;
  }

  lemma Associates<T>(a: seq<T>, b: seq<T>, c: seq<T>)
    ensures a + (b + c) == a + b + c
  {
  }
}
