/** References to sections by type and index, such as @interface[-1] (uci_lookup_ext_section in list.c). */
module UciReference {
  import opened Common
  import opened UciStore
  import opened UciReplay
  import opened UciPackage

  /** strchr: the position of the first c, or the length. */
  function Index(s: string, c: char): (i: nat)
    ensures i <= |s| && c !in s[..i] && (i < |s| ==> s[i] == c)
  {
    if s == "" || s[0] == c then 0 else 1 + Index(s[1..], c)
  }

  predicate AllDigits(s: string) { forall c <- s :: Digit(c) }

  function SkipSpace(s: string): string { if s != "" && Space(s[0]) then SkipSpace(s[1..]) else s }

  /** What strtol reads, if it reads all of the string. It takes the empty string for zero, but not white space. */
  function WholeNumber(s: string): Maybe<int> {
    if s == "" then Some(0)
    else
      var t := SkipSpace(s);
      var u := if t != "" && (t[0] == '-' || t[0] == '+') then t[1..] else t;
      if u == "" || !AllDigits(u) then None
      else
        var n: int := Accumulate(0, u);
        Some(if t[0] == '-' then -n else n)
  }

  datatype Reference = Malformed | Nth(kind: Maybe<string>, index: int)

  /** What a reference says: an at sign, a type or nothing, and an index in brackets at the end. */
  function Meaning(section: string): Reference {
    if section == "" || section[0] != '@' then Malformed
    else
      var s := section[1..];
      var i := Index(s, '[');
      if i == |s| then Malformed
      else
        var t := s[i + 1..];
        var j := Index(t, ']');
        if j + 1 != |t| then Malformed
        else
          var index := WholeNumber(t[..j]);
          if index.None? || (i > 0 && !ValidType(s[..i])) then Malformed
          else Nth(if i == 0 then None else Some(s[..i]), index.value)
  }

  function Spelling(kind: Maybe<string>, index: int): string {
    "@" + ((if kind.None? then "" else kind.value) + ("[" + (Decimal(index) + "]")))
  }

  lemma {:induction false} IndexIs(s: string, k: nat, c: char)
    requires k < |s| && s[k] == c && c !in s[..k]
    ensures Index(s, c) == k
  {
    var i := Index(s, c);
    assert forall x :: 0 <= x < k ==> s[x] in s[..k];
    assert forall x :: 0 <= x < i ==> s[x] in s[..i];
  }

  lemma {:induction false} DecimalWhole(n: int)
    ensures WholeNumber(Decimal(n)) == Some(n) && ']' !in Decimal(n)
  {
    var m: nat := if n < 0 then -n else n;
    DigitsOnly(m);
    AccumulateDigits(m, "");
    assert Digits(m) + "" == Digits(m) && Digits(m)[0] in Digits(m);
    if n < 0 {
      assert Decimal(n)[1..] == Digits(m);
    }
  }

  /** An at sign, a type or nothing, and a number in brackets are understood. */
  lemma PartsMean(k: string, d: string)
    requires '[' !in k && ']' !in d && (k == "" || ValidType(k)) && WholeNumber(d).Some?
    ensures Meaning("@" + (k + ("[" + (d + "]")))) == Nth(if k == "" then None else Some(k), WholeNumber(d).value)
  {
    var t := d + "]";
    var s := k + ("[" + t);
    assert ("@" + s)[1..] == s;
    Apart(k, '[', t);
    Apart(d, ']', "");
    assert "]" + "" == "]";
    IndexIs(s, |k|, '[');
    IndexIs(t, |d|, ']');
  }

  lemma Rejoined(s: string, i: nat)
    requires i < |s|
    ensures s == s[..i] + ([s[i]] + s[i + 1..])
  {
  }

  lemma LastOff(t: string)
    requires t != ""
    ensures t == t[..|t| - 1] + [t[|t| - 1]]
  {
  }

  lemma FirstOff(s: string)
    requires s != ""
    ensures s == [s[0]] + s[1..]
  {
  }

  lemma Apart(a: string, c: char, b: string)
    ensures var s := a + ([c] + b); |s| == |a| + 1 + |b| && s[..|a|] == a && s[|a|] == c && s[|a| + 1..] == b
  {
  }

  /** Nothing else is. */
  lemma MeaningParts(section: string) returns (k: string, d: string)
    requires Meaning(section).Nth?
    ensures section == "@" + (k + ("[" + (d + "]"))) && '[' !in k && ']' !in d && (k == "" || ValidType(k))
    ensures WholeNumber(d).Some?
  {
    var s := section[1..];
    var i := Index(s, '[');
    var t := s[i + 1..];
    var j := Index(t, ']');
    k, d := s[..i], t[..j];
    LastOff(t);
    Rejoined(s, i);
    FirstOff(section);
  }

  /** White space, a sign and digits make a number. */
  lemma {:induction false} NumberRead(sp: string, sign: string, n: nat)
    requires (forall c <- sp :: Space(c)) && sign in {"", "+", "-"}
    ensures WholeNumber(sp + (sign + Digits(n))) == Some(if sign == "-" then 0 - n else n)
    decreases |sp|
  {
    var t := sign + Digits(n);
    DigitsOnly(n);
    AccumulateDigits(n, "");
    assert Digits(n) + "" == Digits(n) && Digits(n)[0] in Digits(n);
    SpaceSkipped(sp, t);
    assert sign == "" ==> t == Digits(n);
    assert sign != "" ==> t[1..] == Digits(n);
  }

  lemma {:induction false} SpaceSkipped(sp: string, t: string)
    requires (forall c <- sp :: Space(c)) && t != "" && !Space(t[0])
    ensures SkipSpace(sp + t) == t
  {
    if sp == "" {
      assert sp + t == t;
    } else {
      assert sp[0] in sp && (sp + t)[1..] == sp[1..] + t && forall c <- sp[1..] :: c in sp;
      SpaceSkipped(sp[1..], t);
    }
  }

  /** Anything else in it makes none. */
  lemma {:induction false} NumberBad(s: string, i: nat)
    requires i < |s| && !Space(s[i]) && !Digit(s[i]) && s[i] != '-' && s[i] != '+'
    ensures WholeNumber(s) == None
  {
    if Space(s[0]) {
      NumberBad(s[1..], i - 1);
    } else {
      var u := if s[0] == '-' || s[0] == '+' then s[1..] else s;
      assert s[i] in u by { assert s[i] == u[i - (|s| - |u|)]; }
    }
  }

  /** Every type without an opening bracket, and every index, can be spelled and is understood. */
  lemma {:induction false} SpellingMeans(kind: Maybe<string>, index: int)
    requires kind.Some? ==> ValidType(kind.value) && '[' !in kind.value
    ensures Meaning(Spelling(kind, index)) == Nth(kind, index)
  {
    DecimalWhole(index);
    PartsMean(if kind.None? then "" else kind.value, Decimal(index));
  }

  /** Only such types can be meant. */
  lemma MeantPlain(section: string)
    ensures var r := Meaning(section); r.Nth? && r.kind.Some? ==> ValidType(r.kind.value) && '[' !in r.kind.value
  {
  }

  // ---- the same in loops ----

  method Strchr(s: string, from: nat, c: char) returns (i: nat)
    requires from <= |s|
    ensures i == from + Index(s[from..], c)
  {
    i := from;
    while i < |s| && s[i] != c
      invariant from <= i <= |s| && Index(s[from..], c) == i - from + Index(s[i..], c)
    {
      i := i + 1;
    }
  }

  method SpaceEnd(s: string) returns (i: nat)
    ensures i <= |s| && SkipSpace(s) == s[i..]
  {
    i := 0;
    while i < |s| && Space(s[i])
      invariant i <= |s| && SkipSpace(s) == SkipSpace(s[i..])
    {
      i := i + 1;
    }
  }

  lemma DigitsOn(s: string)
    requires s != ""
    ensures AllDigits(s) <==> Digit(s[0]) && AllDigits(s[1..])
  {
    assert s == [s[0]] + s[1..];
  }

  method ReadDigits(s: string, from: nat) returns (n: nat, all: bool)
    requires from <= |s|
    ensures n == Accumulate(0, s[from..]) && all == AllDigits(s[from..])
  {
    n := 0;
    var i := from;
    while i < |s| && Digit(s[i])
      invariant from <= i <= |s| && Accumulate(0, s[from..]) == Accumulate(n, s[i..])
      invariant AllDigits(s[from..]) <==> AllDigits(s[i..])
    {
      DigitsOn(s[i..]);
      n := 10 * n + (s[i] as int - '0' as int);
      i := i + 1;
    }
    if i < |s| {
      DigitsOn(s[i..]);
    }
    all := i == |s|;
  }

  method Strtol(s: string) returns (r: Maybe<int>)
    ensures r == WholeNumber(s)
  {
    if s == "" {
      return Some(0);
    }
    var i := SpaceEnd(s);
    var negative := i < |s| && s[i] == '-';
    if i < |s| && (s[i] == '-' || s[i] == '+') {
      i := i + 1;
    }
    if i == |s| {
      return None;
    }
    var n, all := ReadDigits(s, i);
    var value: int := n;
    if negative {
      value := -value;
    }
    return if all then Some(value) else None;
  }

  method Parse(section: string) returns (r: Reference)
    ensures r == Meaning(section)
  {
    if section == "" || section[0] != '@' {
      return Malformed;
    }
    var i := Strchr(section, 1, '[');
    if i == |section| {
      return Malformed;
    }
    ghost var s, t := section[1..], section[i + 1..];
    assert t == s[i..];
    var j := Strchr(section, i + 1, ']');
    if j + 1 != |section| {
      return Malformed;
    }
    var name, digits := section[1..i], section[i + 1..j];
    assert name == s[..i - 1] && digits == t[..j - i - 1];
    var index := Strtol(digits);
    if index.None? || (name != "" && !ValidType(name)) {
      return Malformed;
    }
    return Nth(if name == "" then None else Some(name), index.value);
  }

  /** uci_lookup_ext_section: an error exactly if the reference is malformed, and otherwise the section it means,
      counted from the end if the index is negative. */
  method Lookup(pkg: Package, section: string) returns (ok: bool, r: Maybe<nat>)
    ensures ok <==> Meaning(section).Nth?
    ensures ok ==> var m := Meaning(section); r == Resolved(pkg.sections, Extended(section[1..], m.kind, m.index))
    ensures !ok ==> r == None
  {
    var m := Parse(section);
    if m.Malformed? {
      return false, None;
    }
    r := pkg.LookupExtended(m.kind, m.index);
    ok := true;
  }
}
