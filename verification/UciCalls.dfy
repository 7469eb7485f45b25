/** What each call of libuci does (list.c), said with the sections and options before and after it and nothing else. */
module UciCalls {
  import opened Common
  import opened UciStore
  import opened UciReplay
  import opened UciLaws

  // ---- which section is meant ----

  /** A name means the first section that has it. */
  lemma NameMeans(ss: seq<Section>, name: string)
    ensures var r := Resolved(ss, Named(name));
            if r.None? then forall i :: 0 <= i < |ss| ==> ss[i].name != name
            else r.value < |ss| && ss[r.value].name == name && forall i :: 0 <= i < r.value ==> ss[i].name != name
  {
  }

  /** How many sections have the type. */
  function Tally(ss: seq<Section>, kind: string): nat {
    if ss == [] then 0 else Tally(ss[..|ss| - 1], kind) + if ss[|ss| - 1].kind == kind then 1 else 0
  }

  lemma {:induction false} TallySum(a: seq<Section>, b: seq<Section>, kind: string)
    ensures Tally(a + b, kind) == Tally(a, kind) + Tally(b, kind)
  {
    if b == [] {
      assert a + b == a;
    } else {
      var n := |b| - 1;
      assert (a + b)[..|a + b| - 1] == a + b[..n] && (a + b)[|a + b| - 1] == b[n];
      TallySum(a, b[..n], kind);
    }
  }

  lemma TallyAround(ss: seq<Section>, j: nat, kind: string)
    requires j < |ss|
    ensures Tally(ss, kind) == Tally(ss[..j], kind) + Tally(ss[j + 1..], kind) + if ss[j].kind == kind then 1 else 0
  {
    assert ss == ss[..j] + ([ss[j]] + ss[j + 1..]) && [ss[j]][..0] == [];
    TallySum(ss[..j], [ss[j]] + ss[j + 1..], kind);
    TallySum([ss[j]], ss[j + 1..], kind);
    assert Tally([ss[j]], kind) == Tally([], kind) + if ss[j].kind == kind then 1 else 0;
  }

  /** The k-th position listed for a type has the type, and k sections of the type before it. */
  lemma {:induction false} MatchingTally(ss: seq<Section>, kind: string)
    ensures var m := Matching(ss, Some(kind));
            && |m| == Tally(ss, kind)
            && forall k :: 0 <= k < |m| ==> m[k] < |ss| && ss[m[k]].kind == kind && Tally(ss[..m[k]], kind) == k
  {
    if ss != [] {
      var n := |ss| - 1;
      var pre, m := Matching(ss[..n], Some(kind)), Matching(ss, Some(kind));
      MatchingTally(ss[..n], kind);
      forall k | 0 <= k < |m|
        ensures m[k] < |ss| && ss[m[k]].kind == kind && Tally(ss[..m[k]], kind) == k
      {
        if k < |pre| {
          assert m[k] == pre[k] && ss[..n][..m[k]] == ss[..m[k]];
        }
      }
    }
  }

  /** A type and an index mean the section of the type with so many of them before it, or behind it if the index is
      negative; there is none exactly if there are too few of the type. */
  lemma TypeMeans(ss: seq<Section>, spelling: string, kind: string, index: int)
    ensures var r := Resolved(ss, Extended(spelling, Some(kind), index));
            && (r.None? <==> index >= Tally(ss, kind) || -index > Tally(ss, kind))
            && (r.Some? ==> r.value < |ss| && ss[r.value].kind == kind)
            && (r.Some? && index >= 0 ==> Tally(ss[..r.value], kind) == index)
            && (r.Some? && index < 0 ==> Tally(ss[r.value + 1..], kind) == -index - 1)
  {
    MatchingTally(ss, kind);
    var r := Resolved(ss, Extended(spelling, Some(kind), index));
    if r.Some? {
      TallyAround(ss, r.value, kind);
    }
  }

  lemma {:induction false} MatchingAll(ss: seq<Section>)
    ensures |Matching(ss, None)| == |ss| && forall k :: 0 <= k < |ss| ==> Matching(ss, None)[k] == k
  {
    if ss != [] {
      MatchingAll(ss[..|ss| - 1]);
    }
  }

  /** An index alone means the section at that position, counted from the end if it is negative. */
  lemma IndexMeans(ss: seq<Section>, spelling: string, index: int)
    ensures Resolved(ss, Extended(spelling, None, index))
         == if 0 <= index < |ss| then Some(index) else if 0 <= index + |ss| < |ss| then Some(index + |ss|) else None
  {
    MatchingAll(ss);
  }

  /** The package with other options in one section. */
  function With(ss: seq<Section>, i: nat, os: seq<Opt>): seq<Section>
    requires i < |ss|
  {
    ss[..i] + [Section(ss[i].name, ss[i].kind, ss[i].anonymous, os)] + ss[i + 1..]
  }

  /** The call went well and left one record. */
  predicate Logged(r: Outcome, d: Delta) { r.status == Done && r.delta == [d] }

  /** The position of an option, if the section has it. */
  predicate Has(s: Section, option: string, j: nat) {
    j < |s.options| && s.options[j].name == option && forall k :: 0 <= k < j ==> s.options[k].name != option
  }

  predicate Lacks(s: Section, option: string) {
    forall k :: 0 <= k < |s.options| ==> s.options[k].name != option
  }

  lemma Meets(ss: seq<Section>, ref: Ref, option: string, value: Maybe<string>, i: nat, j: nat)
    requires Resolved(ss, ref) == Some(i) && i < |ss| && Has(ss[i], option, j)
    ensures Expanded(ss, ref, Some(option), value) == Ptr(ss[i].name, Some(i), Some(option), Some(j), value)
  {
  }

  lemma Misses(ss: seq<Section>, ref: Ref, option: string, value: Maybe<string>, i: nat)
    requires Resolved(ss, ref) == Some(i) && i < |ss| && Lacks(ss[i], option)
    ensures Expanded(ss, ref, Some(option), value) == Ptr(ss[i].name, Some(i), Some(option), None, value)
  {
  }

  // ---- uci_delete ----

  /** Numbers are written in decimal digits, the first one first. */
  lemma DecimalSpelled(n: nat, d: nat)
    requires d < 10
    ensures Decimal(d) == ["0123456789"[d]]
    ensures n > 0 ==> Decimal(10 * n + d) == Decimal(n) + Decimal(d) && Decimal(0 - n) == "-" + Decimal(n)
  {
    assert (10 * n + d) / 10 == n && (10 * n + d) % 10 == d;
  }

  /** Deleting an item of a list by its index; an index that is not there changes nothing. */
  lemma DeletesItem(ss: seq<Section>, ref: Ref, option: string, i: nat, j: nat, items: seq<string>, index: int)
    requires Resolved(ss, ref) == Some(i) && i < |ss| && Has(ss[i], option, j)
    requires ss[i].options[j].value == Items(items)
    ensures var r, os := Applied(ss, Delete(ref, Some(option), Some(Decimal(index)))), ss[i].options;
            && (0 <= index < |items| ==>
                  && r.sections == With(ss, i, os[j := Opt(option, Items(items[..index] + items[index + 1..]))])
                  && Logged(r, Delta(Remove, ss[i].name, Some(option), Some(Decimal(index)))))
            && (!(0 <= index < |items|) ==> r == Outcome(ss, [], Done))
  {
    Meets(ss, ref, option, Some(Decimal(index)), i, j);
    DecimalReads(index);
    DigitsOnly(if index < 0 then -index else index);
  }

  /** The same for somebody who reads values back. */
  lemma {:induction false} DeleteItemThenGet(
    ss: seq<Section>, ref: Ref, option: string, i: nat, items: seq<string>, index: nat)
    requires Sound(ss) && Resolved(ss, ref) == Some(i) && i < |ss|
    requires Get(ss, ss[i].name, option) == Some(Items(items)) && index < |items|
    ensures var now := Applied(ss, Delete(ref, Some(option), Some(Decimal(index)))).sections;
            && Get(now, ss[i].name, option) == Some(Items(items[..index] + items[index + 1..]))
            && SameElsewhere(ss, now, ss[i].name, option)
  {
    FindsItself(ss, i);
    var j := FindOption(ss[i].options, option);
    DeletesItem(ss, ref, option, i, j, items, index);
    var p, v := Expanded(ss, ref, Some(option), None), Items(items[..index] + items[index + 1..]);
    GetRevalued(ss, p, v);
    assert Revalued(ss, p, v) == With(ss, i, ss[i].options[j := Opt(option, v)]);
  }

  /** What is no number is no index. */
  lemma DeletesNoItem(ss: seq<Section>, ref: Ref, option: string, i: nat, j: nat, items: seq<string>, value: string)
    requires Resolved(ss, ref) == Some(i) && i < |ss| && Has(ss[i], option, j)
    requires ss[i].options[j].value == Items(items)
    requires value != "" && !Digit(value[0]) && !Space(value[0]) && value[0] != '-' && value[0] != '+'
    ensures Applied(ss, Delete(ref, Some(option), Some(value))) == Outcome(ss, [], BadIndex)
  {
    Meets(ss, ref, option, Some(value), i, j);
  }

  /** Deleting an option: a list without an index, or a string whatever the value is. */
  lemma DeletesOption(ss: seq<Section>, ref: Ref, option: string, value: Maybe<string>, i: nat, j: nat)
    requires Resolved(ss, ref) == Some(i) && i < |ss| && Has(ss[i], option, j)
    requires ss[i].options[j].value.Text? || value.None? || value.value == ""
    ensures var r, os := Applied(ss, Delete(ref, Some(option), value)), ss[i].options;
            && r.sections == With(ss, i, os[..j] + os[j + 1..])
            && Logged(r, Delta(Remove, ss[i].name, Some(option), None))
  {
    Meets(ss, ref, option, value, i, j);
  }

  /** Deleting a section, whatever the value is. */
  lemma DeletesSection(ss: seq<Section>, ref: Ref, value: Maybe<string>, i: nat)
    requires Resolved(ss, ref) == Some(i) && i < |ss|
    ensures var r := Applied(ss, Delete(ref, None, value));
            r.sections == ss[..i] + ss[i + 1..] && Logged(r, Delta(Remove, ss[i].name, None, None))
  {
  }

  /** What is not there cannot be deleted or renamed. */
  lemma FindsNothing(ss: seq<Section>, ref: Ref, option: Maybe<string>, value: Maybe<string>)
    requires var r := Resolved(ss, ref);
             r.Some? ==> r.value < |ss| && option.Some? && Lacks(ss[r.value], option.value)
    ensures Applied(ss, Delete(ref, option, value)) == Outcome(ss, [], NotFound)
    ensures Applied(ss, RenameTo(ref, option, value)) == Outcome(ss, [], NotFound)
  {
    if Resolved(ss, ref).Some? {
      Misses(ss, ref, option.value, value, Resolved(ss, ref).value);
    }
  }

  // ---- uci_set ----

  /** A value goes to the end of the options, in place of what was there. */
  lemma SetsOption(ss: seq<Section>, ref: Ref, option: string, value: string, i: nat, j: nat)
    requires Resolved(ss, ref) == Some(i) && i < |ss| && value != "" && Has(ss[i], option, j)
    requires ss[i].options[j].value != Text(value)
    ensures var r, os := Applied(ss, SetValue(ref, Some(option), Some(value))), ss[i].options;
            && r.sections == With(ss, i, os[..j] + os[j + 1..] + [Opt(option, Text(value))])
            && Logged(r, Delta(Change, ss[i].name, Some(option), Some(value)))
  {
    Meets(ss, ref, option, Some(value), i, j);
  }

  /** The same value stays where it is. */
  lemma SetsSame(ss: seq<Section>, ref: Ref, option: string, value: string, i: nat, j: nat)
    requires Resolved(ss, ref) == Some(i) && i < |ss| && value != "" && Has(ss[i], option, j)
    requires ss[i].options[j].value == Text(value)
    ensures Applied(ss, SetValue(ref, Some(option), Some(value))) == Outcome(ss, [], Done)
  {
    Meets(ss, ref, option, Some(value), i, j);
  }

  lemma SetsNewOption(ss: seq<Section>, ref: Ref, option: string, value: string, i: nat)
    requires Resolved(ss, ref) == Some(i) && i < |ss| && value != "" && Lacks(ss[i], option)
    ensures var r := Applied(ss, SetValue(ref, Some(option), Some(value)));
            && r.sections == With(ss, i, ss[i].options + [Opt(option, Text(value))])
            && Logged(r, Delta(Change, ss[i].name, Some(option), Some(value)))
  {
    Misses(ss, ref, option, Some(value), i);
  }

  /** An existing section changes its type and nothing else. */
  lemma SetsType(ss: seq<Section>, ref: Ref, kind: string, i: nat)
    requires Resolved(ss, ref) == Some(i) && i < |ss| && ValidType(kind)
    ensures var r := Applied(ss, SetValue(ref, None, Some(kind)));
            && r.sections == ss[i := ss[i].(kind := kind)]
            && Logged(r, Delta(Change, ss[i].name, None, Some(kind)))
            && forall s, o :: Get(r.sections, s, o) == Get(ss, s, o)
  {
    var now := Applied(ss, SetValue(ref, None, Some(kind))).sections;
    assert forall k :: 0 <= k < |ss| ==> now[k].name == ss[k].name && now[k].options == ss[k].options;
  }

  /** A section that is not there is made, last and empty. */
  lemma SetsNew(ss: seq<Section>, name: string, kind: string)
    requires Resolved(ss, Named(name)) == None && ValidType(kind)
    ensures var r := Applied(ss, SetValue(Named(name), None, Some(kind)));
            && r.sections == ss + [Section(name, kind, name == "", [])]
            && Logged(r, Delta(Change, name, None, Some(kind)))
  {
  }

  /** Setting what is there to the empty string deletes it. */
  lemma SetsEmpty(ss: seq<Section>, ref: Ref, option: Maybe<string>)
    requires Expanded(ss, ref, option, None).Complete()
    ensures Applied(ss, SetValue(ref, option, Some(""))) == Applied(ss, Delete(ref, option, None))
  {
  }

  /** What is not there is not deleted either. */
  lemma SetsEmptyNowhere(ss: seq<Section>, ref: Ref, option: Maybe<string>)
    requires !Expanded(ss, ref, option, None).Complete() && (option.Some? ==> Resolved(ss, ref).Some?)
    ensures Applied(ss, SetValue(ref, option, Some(""))) == Outcome(ss, [], Done)
  {
  }

  /** What cannot be set. */
  lemma SetsNothing(ss: seq<Section>, ref: Ref, option: Maybe<string>, value: Maybe<string>)
    requires || value.None?
             || (Resolved(ss, ref).None? && option.Some?)
             || (option.None? && value.value != "" && !ValidType(value.value))
    ensures Applied(ss, SetValue(ref, option, value)) == Outcome(ss, [], Invalid)
  {
  }

  // ---- uci_add_list and uci_del_list ----

  /** An item goes to the end of a list. */
  lemma AddsItem(ss: seq<Section>, ref: Ref, option: string, value: string, i: nat, j: nat, items: seq<string>)
    requires Resolved(ss, ref) == Some(i) && i < |ss| && Has(ss[i], option, j)
    requires ss[i].options[j].value == Items(items)
    ensures var r, os := Applied(ss, AddItem(ref, Some(option), Some(value))), ss[i].options;
            && r.sections == With(ss, i, os[j := Opt(option, Items(items + [value]))])
            && Logged(r, Delta(ListAdd, ss[i].name, Some(option), Some(value)))
  {
    Meets(ss, ref, option, Some(value), i, j);
  }

  /** A string becomes a list of two, at the end of the options. */
  lemma AddsToText(ss: seq<Section>, ref: Ref, option: string, value: string, i: nat, j: nat, text: string)
    requires Resolved(ss, ref) == Some(i) && i < |ss| && Has(ss[i], option, j)
    requires ss[i].options[j].value == Text(text)
    ensures var r, os := Applied(ss, AddItem(ref, Some(option), Some(value))), ss[i].options;
            && r.sections == With(ss, i, os[..j] + os[j + 1..] + [Opt(option, Items([text, value]))])
            && Logged(r, Delta(ListAdd, ss[i].name, Some(option), Some(value)))
  {
    Meets(ss, ref, option, Some(value), i, j);
  }

  lemma AddsFirstItem(ss: seq<Section>, ref: Ref, option: string, value: string, i: nat)
    requires Resolved(ss, ref) == Some(i) && i < |ss| && Lacks(ss[i], option)
    ensures var r := Applied(ss, AddItem(ref, Some(option), Some(value)));
            && r.sections == With(ss, i, ss[i].options + [Opt(option, Items([value]))])
            && Logged(r, Delta(ListAdd, ss[i].name, Some(option), Some(value)))
  {
    Misses(ss, ref, option, Some(value), i);
  }

  /** Removing the copies of an item works item by item, in order. */
  lemma {:induction false} FilteredSum(a: seq<string>, b: seq<string>, v: string)
    ensures Filtered(a + b, v) == Filtered(a, v) + Filtered(b, v)
  {
    if b == [] {
      assert a + b == a && Filtered(a, v) + [] == Filtered(a, v);
    } else {
      var n := |b| - 1;
      assert (a + b)[..|a + b| - 1] == a + b[..n] && (a + b)[|a + b| - 1] == b[n];
      FilteredSum(a, b[..n], v);
    }
  }

  lemma FilteredOne(x: string, v: string)
    ensures Filtered([x], v) == if x == v then [] else [x]
  {
    assert [x][..0] == [] && Filtered([], v) == [];
  }

  /** Every copy of the item goes from a list; a string stays as it is. */
  lemma DeletesCopies(ss: seq<Section>, ref: Ref, option: string, value: string, i: nat, j: nat)
    requires Resolved(ss, ref) == Some(i) && i < |ss| && Has(ss[i], option, j)
    ensures var r, os := Applied(ss, DelItem(ref, Some(option), Some(value))), ss[i].options;
            var v := os[j].value;
            && (v.Text? ==> r == Outcome(ss, [], Done))
            && (v.Items? ==>
                  && r.sections == With(ss, i, os[j := Opt(option, Items(Filtered(v.items, value)))])
                  && Logged(r, Delta(ListDel, ss[i].name, Some(option), Some(value))))
  {
    Meets(ss, ref, option, Some(value), i, j);
  }

  lemma DeletesNoCopy(ss: seq<Section>, ref: Ref, option: Maybe<string>, value: string, i: nat)
    requires Resolved(ss, ref) == Some(i) && i < |ss| && (option.Some? ==> Lacks(ss[i], option.value))
    ensures Applied(ss, DelItem(ref, option, Some(value))) == Outcome(ss, [], Done)
  {
    if option.Some? {
      Misses(ss, ref, option.value, Some(value), i);
    }
  }

  /** Lists need a section and a value. */
  lemma ListsNothing(ss: seq<Section>, ref: Ref, option: Maybe<string>, value: Maybe<string>)
    requires Resolved(ss, ref).None? || value.None?
    ensures Applied(ss, AddItem(ref, option, value)) == Outcome(ss, [], Invalid)
    ensures Applied(ss, DelItem(ref, option, value)) == Outcome(ss, [], Invalid)
  {
  }

  // ---- uci_rename ----

  /** A section stays where it is under its new name, and is not anonymous any more. */
  lemma RenamesSection(ss: seq<Section>, ref: Ref, name: string, i: nat)
    requires Resolved(ss, ref) == Some(i) && i < |ss|
    ensures var r := Applied(ss, RenameTo(ref, None, Some(name)));
            && r.sections == ss[i := ss[i].(name := name, anonymous := false)]
            && Logged(r, Delta(Rename, ss[i].name, None, Some(name)))
  {
  }

  /** An option stays where it is with its value. */
  lemma RenamesOption(ss: seq<Section>, ref: Ref, option: string, name: string, i: nat, j: nat)
    requires Resolved(ss, ref) == Some(i) && i < |ss| && Has(ss[i], option, j)
    ensures var r, os := Applied(ss, RenameTo(ref, Some(option), Some(name))), ss[i].options;
            && r.sections == With(ss, i, os[j := Opt(name, os[j].value)])
            && Logged(r, Delta(Rename, ss[i].name, Some(option), Some(name)))
  {
    Meets(ss, ref, option, Some(name), i, j);
  }

  lemma GetRenamed(os: seq<Opt>, j: nat, name: string, o: string)
    requires SoundOptions(os) && j < |os| && os[j].name != name && FindOption(os, name) == |os|
    ensures GetOption(os[j := Opt(name, os[j].value)], o)
         == if o == name then Some(os[j].value) else if o == os[j].name then None else GetOption(os, o)
  {
    var more := os[j := Opt(name, os[j].value)];
    assert more[j] == Opt(name, os[j].value) && forall k :: 0 <= k < |os| && k != j ==> more[k] == os[k];
  }

  /** The same for somebody who reads values back. */
  lemma {:induction false} RenameOptionThenGet(
    ss: seq<Section>, ref: Ref, option: string, name: string, i: nat, s: string, o: string)
    requires Sound(ss) && Resolved(ss, ref) == Some(i) && i < |ss| && name != option
    requires Get(ss, ss[i].name, option).Some? && Get(ss, ss[i].name, name).None?
    ensures Get(Applied(ss, RenameTo(ref, Some(option), Some(name))).sections, s, o)
         == if s == ss[i].name && o == name then Get(ss, s, option)
            else if s == ss[i].name && o == option then None
            else Get(ss, s, o)
  {
    FindsItself(ss, i);
    var os := ss[i].options;
    var j := FindOption(os, option);
    var more := os[j := Opt(name, os[j].value)];
    RenamesOption(ss, ref, option, name, i, j);
    GetWith(ss, i, more, s, o);
    GetRenamed(os, j, name, o);
  }

  /** Without a new name nothing is renamed. */
  lemma RenamesNothing(ss: seq<Section>, ref: Ref, i: nat)
    requires Resolved(ss, ref) == Some(i) && i < |ss|
    ensures Applied(ss, RenameTo(ref, None, None)) == Outcome(ss, [], Invalid)
  {
  }

  // ---- uci_reorder_section ----

  /** A section comes to the position asked for, to the first one if that is negative and to the last one if it is too
      large; the others stay in order. */
  lemma MovesSection(ss: seq<Section>, ref: Ref, pos: int, i: nat)
    requires Resolved(ss, ref) == Some(i) && i < |ss|
    ensures var r := Applied(ss, MoveTo(ref, pos));
            var k := if pos < 0 then 0 else if pos < |ss| then pos else |ss| - 1;
            && Logged(r, Delta(Reorder, ss[i].name, None, Some(Decimal(pos))))
            && |r.sections| == |ss| && r.sections[k] == ss[i]
            && r.sections[..k] + r.sections[k + 1..] == ss[..i] + ss[i + 1..]
  {
    MoveThenPlace(ss, i, pos);
  }

  lemma MovesNothing(ss: seq<Section>, ref: Ref, pos: int)
    requires Resolved(ss, ref).None?
    ensures Applied(ss, MoveTo(ref, pos)) == Outcome(ss, [], NotFound)
  {
  }
}
