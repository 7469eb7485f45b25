/** What the mutators of libuci mean to somebody who only reads values back. */
module UciLaws {
  import opened Common
  import opened UciStore
  import opened UciReplay

  /** The value a reader finds under a section and an option name. */
  function Get(ss: seq<Section>, section: string, option: string): Maybe<Value> {
    var i := FindSection(ss, section);
    if i == |ss| then None else GetOption(ss[i].options, option)
  }

  function GetOption(os: seq<Opt>, option: string): Maybe<Value> {
    var j := FindOption(os, option);
    if j == |os| then None else Some(os[j].value)
  }

  /** Two packages show the same values except under one section and option. */
  ghost predicate SameElsewhere(a: seq<Section>, b: seq<Section>, section: string, option: string) {
    forall s, o :: s != section || o != option ==> Get(a, s, o) == Get(b, s, o)
  }

  /** Replacing the options of one section is seen in that section only. */
  lemma GetWith(ss: seq<Section>, i: nat, os: seq<Opt>, section: string, option: string)
    requires Sound(ss) && i < |ss|
    ensures Get(WithOptions(ss, i, os), section, option)
         == if section == ss[i].name then GetOption(os, option) else Get(ss, section, option)
  {
    var now := WithOptions(ss, i, os);
    assert forall j :: 0 <= j < |ss| ==> now[j].name == ss[j].name;
    FindsItself(ss, i);
  }

  lemma GetDropped(os: seq<Opt>, i: nat, option: string)
    requires SoundOptions(os) && i < |os|
    ensures GetOption(Drop(os, i), option) == if option == os[i].name then None else GetOption(os, option)
  {
    var j, now := FindOption(os, option), Drop(os, i);
    assert forall k :: 0 <= k < |now| ==> now[k] == os[if k < i then k else k + 1];
    if option != os[i].name && j < |os| {
      assert now[if j < i then j else j - 1] == os[j];
    }
  }

  lemma GetAppended(os: seq<Opt>, name: string, v: Value, option: string)
    requires FindOption(os, name) == |os|
    ensures GetOption(os + [Opt(name, v)], option) == if option == name then Some(v) else GetOption(os, option)
  {
    var j, now := FindOption(os, option), os + [Opt(name, v)];
    assert forall k :: 0 <= k < |os| ==> now[k] == os[k];
    assert now[|os|] == Opt(name, v);
  }

  lemma GetUpdated(os: seq<Opt>, i: nat, v: Value, option: string)
    requires SoundOptions(os) && i < |os|
    ensures GetOption(os[i := os[i].(value := v)], option)
         == if option == os[i].name then Some(v) else GetOption(os, option)
  {
    var now := os[i := os[i].(value := v)];
    assert forall k :: 0 <= k < |os| ==> now[k].name == os[k].name;
  }

  lemma {:induction false} GetReplaced(ss: seq<Section>, p: Ptr, v: Value)
    requires Sound(ss) && Fits(ss, p) && Sought(ss, p) && p.s.Some? && p.option.Some?
    ensures Get(Replaced(ss, p, v), p.section, p.option.value) == Some(v)
    ensures SameElsewhere(ss, Replaced(ss, p, v), p.section, p.option.value)
  {
    var i, name := p.s.value, p.option.value;
    var os := ss[i].options;
    var less := if p.o.Some? then Drop(os, p.o.value) else os;
    FindsItself(ss, i);
    forall s, o
      ensures Get(Replaced(ss, p, v), s, o) == if s == p.section && o == name then Some(v) else Get(ss, s, o)
    {
      if p.o.Some? {
        GetDropped(os, p.o.value, name);
        GetDropped(os, p.o.value, o);
      }
      GetAppended(less, name, v, o);
      GetWith(ss, i, less + [Opt(name, v)], s, o);
    }
  }

  lemma {:induction false} GetRevalued(ss: seq<Section>, p: Ptr, v: Value)
    requires Sound(ss) && Fits(ss, p) && p.o.Some?
    ensures Get(Revalued(ss, p, v), p.section, p.option.value) == Some(v)
    ensures SameElsewhere(ss, Revalued(ss, p, v), p.section, p.option.value)
  {
    var i, j := p.s.value, p.o.value;
    var os := ss[i].options;
    FindsItself(ss, i);
    forall s, o
      ensures Get(Revalued(ss, p, v), s, o) == if s == p.section && o == p.option.value then Some(v) else Get(ss, s, o)
    {
      GetUpdated(os, j, v, o);
      GetWith(ss, i, os[j := os[j].(value := v)], s, o);
    }
  }

  /** The value a pointer points to is the one read under its names. */
  lemma CurrentIsGet(ss: seq<Section>, p: Ptr)
    requires Sound(ss) && Fits(ss, p) && Sought(ss, p) && p.s.Some? && p.option.Some?
    ensures Get(ss, p.section, p.option.value) == if p.o.Some? then Some(Current(ss, p)) else None
  {
    FindsItself(ss, p.s.value);
  }

  /** An option that is set to a value has that value. */
  lemma {:induction false} SetThenGet(ss: seq<Section>, ref: Ref, option: string, value: string)
    requires Sound(ss) && Resolved(ss, ref).Some? && value != ""
    ensures var p := Expanded(ss, ref, Some(option), Some(value));
            var now := Setting(ss, p).sections;
            Get(now, p.section, option) == Some(Text(value)) && SameElsewhere(ss, now, p.section, option)
  {
    var p := Expanded(ss, ref, Some(option), Some(value));
    CurrentIsGet(ss, p);
    GetReplaced(ss, p, Text(value));
  }

  /** A missing option is an empty list and a string a list of one. */
  function AsItems(v: Maybe<Value>): seq<string> {
    match v
    case None => []
    case Some(Text(t)) => [t]
    case Some(Items(items)) => items
  }

  /** Adding to a list appends, whatever the option was before. */
  lemma {:induction false} AddThenGet(ss: seq<Section>, ref: Ref, option: string, value: string)
    requires Sound(ss) && Resolved(ss, ref).Some?
    ensures var p := Expanded(ss, ref, Some(option), Some(value));
            var now := ListAdding(ss, p).sections;
            && Get(now, p.section, option) == Some(Items(AsItems(Get(ss, p.section, option)) + [value]))
            && SameElsewhere(ss, now, p.section, option)
  {
    var p := Expanded(ss, ref, Some(option), Some(value));
    CurrentIsGet(ss, p);
    if p.o.None? {
      GetReplaced(ss, p, Items([value]));
      assert [] + [value] == [value];
    } else {
      match Current(ss, p)
      case Text(t) =>
        GetReplaced(ss, p, Items([t, value]));
        assert [t] + [value] == [t, value];
      case Items(items) => GetRevalued(ss, p, Items(items + [value]));
    }
  }

  lemma {:induction false} FilteredSome(items: seq<string>, v: string)
    ensures v !in Filtered(items, v)
    ensures multiset(items) == multiset(Filtered(items, v)) + multiset{}[v := multiset(items)[v]]
  {
    if items != [] {
      var n := |items| - 1;
      FilteredSome(items[..n], v);
      assert items == items[..n] + [items[n]];
    }
  }

  /** Deleting a list item removes every copy of it and nothing else. */
  lemma {:induction false} DelThenGet(ss: seq<Section>, ref: Ref, option: string, value: string)
    requires Sound(ss) && Resolved(ss, ref).Some?
    ensures var p := Expanded(ss, ref, Some(option), Some(value));
            var was, now := Get(ss, p.section, option), ListDeleting(ss, p).sections;
            && Get(now, p.section, option)
               == (if was.Some? && was.value.Items? then Some(Items(Filtered(was.value.items, value))) else was)
            && SameElsewhere(ss, now, p.section, option)
  {
    var p := Expanded(ss, ref, Some(option), Some(value));
    CurrentIsGet(ss, p);
    if p.o.Some? && Current(ss, p).Items? {
      GetRevalued(ss, p, Items(Filtered(Current(ss, p).items, value)));
    }
  }

  /** An option that is deleted, or set to the empty string, is gone. */
  lemma {:induction false} DeleteThenGet(ss: seq<Section>, ref: Ref, option: string)
    requires Sound(ss) && Resolved(ss, ref).Some?
    ensures var p := Expanded(ss, ref, Some(option), None);
            var now := Deleting(ss, p).sections;
            && now == Setting(ss, p.(value := Some(""))).sections
            && Get(now, p.section, option) == None && SameElsewhere(ss, now, p.section, option)
  {
    var p := Expanded(ss, ref, Some(option), None);
    CurrentIsGet(ss, p);
    if p.o.Some? {
      var i, os := p.s.value, ss[p.s.value].options;
      forall s, o
        ensures Get(Deleting(ss, p).sections, s, o) == if s == p.section && o == option then None else Get(ss, s, o)
      {
        GetDropped(os, p.o.value, o);
        GetWith(ss, i, Drop(os, p.o.value), s, o);
        FindsItself(ss, i);
      }
    }
  }

  /** A renamed section shows its options under the new name only. */
  lemma {:induction false} RenameThenGet(ss: seq<Section>, ref: Ref, name: string, s: string, o: string)
    requires Sound(ss) && Resolved(ss, ref).Some? && Unused(ss, Expanded(ss, ref, None, Some(name)), name)
    ensures var p := Expanded(ss, ref, None, Some(name));
            Get(Renaming(ss, p).sections, s, o)
            == if s == name then Get(ss, p.section, o) else if s == p.section then None else Get(ss, s, o)
  {
    var p := Expanded(ss, ref, None, Some(name));
    var i, now := p.s.value, Renaming(ss, p).sections;
    FindsItself(ss, i);
    assert forall j :: 0 <= j < |ss| && j != i ==> now[j] == ss[j];
    assert now[i].name == name && now[i].options == ss[i].options;
  }

  /** A new section is last, anonymous and empty; it is the last one of its type, and no value that could be read before
      changes. */
  lemma AddSectionThenGet(ss: seq<Section>, kind: string, name: string, spelling: string, s: string, o: string)
    ensures var now := Adding(ss, kind, name).sections;
            && ss <= now && now[|ss|..] == [Section(name, kind, true, [])]
            && Resolved(now, Extended(spelling, Some(kind), -1)) == Some(|ss|) && Get(now, s, o) == Get(ss, s, o)
  {
    var now := Adding(ss, kind, name).sections;
    assert now[..|ss|] == ss && now[|ss|] == Section(name, kind, true, []);
    assert Matching(now, Some(kind)) == Matching(ss, Some(kind)) + [|ss|];
    assert forall j :: 0 <= j < |ss| ==> now[j] == ss[j];
    FindLonger(ss, now[|ss|], s);
  }

  lemma {:induction false} FindLonger(ss: seq<Section>, x: Section, name: string)
    ensures FindSection(ss + [x], name)
         == if FindSection(ss, name) < |ss| || x.name == name then FindSection(ss, name) else |ss| + 1
  {
    if ss != [] {
      assert (ss + [x])[1..] == ss[1..] + [x] && (ss + [x])[0] == ss[0];
      FindLonger(ss[1..], x, name);
    }
  }

  /** Reordering moves one section to its place, the first one for a negative position and the last one for one that is
      too large, and leaves the others in order. */
  lemma MoveThenPlace<T>(s: seq<T>, i: nat, pos: int)
    requires i < |s|
    ensures var k, now := if pos < 0 then 0 else if pos < |s| then pos else |s| - 1, Moved(s, i, pos);
            |now| == |s| && now[k] == s[i] && now[..k] + now[k + 1..] == s[..i] + s[i + 1..]
  {
    var rest, k := Drop(s, i), if pos < 0 then 0 else if pos < |s| then pos else |s| - 1;
    assert Drop(rest[..k] + [s[i]] + rest[k..], k) == rest;
  }

  /** Deleting the second of two sections with the same name. */
  lemma DeleteSecond(s: Section, t: Section)
    requires s.name == t.name
    ensures Applied([s, t], Delete(Extended("[1]", None, 1), None, None))
            == Outcome([s], [Delta(Remove, t.name, None, None)], Done)
    ensures ValidName(s.name) ==> ReplayedOne([s, t], Delta(Remove, t.name, None, None)) == [t]
  {
    var ss := [s, t];
    assert ss[..1] == [s] && [s][..0] == [] && ss[2..] == [] && ss[..0] == [] && ss[1..] == [t];
    assert Matching([], None) == [] && Matching([s], None) == [0] && Matching(ss, None) == [0] + [1];
    assert FindSection(ss, s.name) == 0;
  }

  lemma RenameSecond(s: Section, t: Section)
    requires Sound([s, t])
    ensures var d := Delta(Rename, t.name, None, Some(s.name));
            && Applied([s, t], RenameTo(Named(t.name), None, Some(s.name)))
               == Outcome([s, t.(name := s.name, anonymous := false)], [d], Done)
            && ReplayedOne([s, t], d) == [s, t.(name := s.name, anonymous := false)]
  {
    FindsItself([s, t], 1);
    assert ValidName([s, t][0].name) && ValidName([s, t][1].name);
    assert forall c :: NameChar(c) ==> TextChar(c);
    assert [s, t][1 := t.(name := s.name, anonymous := false)] == [s, t.(name := s.name, anonymous := false)];
  }

  /** Without distinct names replay goes wrong: after one section has been renamed like another,
      deleting the second one is replayed as deleting the first. */
  lemma ClashBreaksReplay(s: Section, t: Section)
    requires Sound([s, t])
    ensures var ops := [RenameTo(Named(t.name), None, Some(s.name)), Delete(Extended("[1]", None, 1), None, None)];
            Replayed([s, t], AppliedAll([s, t], ops).1) == [t.(name := s.name, anonymous := false)]
              && AppliedAll([s, t], ops).0 == [s]
  {
    var ss, t' := [s, t], t.(name := s.name, anonymous := false);
    var rename, del := RenameTo(Named(t.name), None, Some(s.name)), Delete(Extended("[1]", None, 1), None, None);
    var d, e := Delta(Rename, t.name, None, Some(s.name)), Delta(Remove, s.name, None, None);
    assert ValidName(ss[0].name);
    RenameSecond(s, t);
    DeleteSecond(s, t');
    assert [rename, del][1..] == [del] && [del][1..] == [] && [d, e][1..] == [e] && [e][1..] == []
           && [d] + [e] == [d, e];
    var none: seq<Op> := [];
    assert AppliedAll([s], none) == ([s], []) && [e] + [] == [e];
    assert AppliedAll([s, t'], [del]) == ([s], [e]);
    assert AppliedAll(ss, [rename, del]) == ([s], [d, e]);
    assert Replayed([s, t'], [e]) == [t'];
    assert Replayed(ss, [d, e]) == [t'];
  }
}
