/** The package object of libuci: its mutators change the lists in place and log what they did. */
module UciPackage {
  import opened Common
  import opened UciStore
  import opened UciReplay
  import opened UciLaws

  class Package {
    var sections: seq<Section>
    var delta: seq<Delta>
    const hasDelta: bool

    constructor (hasDelta: bool)
      ensures sections == [] && delta == [] && this.hasDelta == hasDelta
    {
      sections, delta, this.hasDelta := [], [], hasDelta;
    }

    ghost function Tracked(internal: bool, ds: seq<Delta>): seq<Delta> {
      if internal || !hasDelta then [] else ds
    }

    /** uci_add_delta, unless the call is internal or the package has no delta. */
    method Log(internal: bool, cmd: Command, section: string, option: Maybe<string>, value: Maybe<string>)
      modifies this`delta
      ensures delta == old(delta) + Tracked(internal, [Delta(cmd, section, option, value)])
    {
      if !internal && hasDelta {
        delta := delta + [Delta(cmd, section, option, value)];
      }
    }

    // ---- lookup ----

    /** uci_lookup_list on the sections */
    method LookupSection(name: string) returns (i: nat)
      ensures i == FindSection(sections, name)
    {
      i := 0;
      while i < |sections| && sections[i].name != name
        invariant i <= |sections|
        invariant forall j :: 0 <= j < i ==> sections[j].name != name
      {
        i := i + 1;
      }
    }

    /** uci_lookup_list on the options of a section */
    method LookupOption(s: nat, name: string) returns (i: nat)
      requires s < |sections|
      ensures i == FindOption(sections[s].options, name)
    {
      var os := sections[s].options;
      i := 0;
      while i < |os| && os[i].name != name
        invariant i <= |os|
        invariant forall j :: 0 <= j < i ==> os[j].name != name
      {
        i := i + 1;
      }
    }

    method CountKind(kind: Maybe<string>) returns (c: nat)
      ensures c == |Matching(sections, kind)|
    {
      c := 0;
      var i := 0;
      while i < |sections|
        invariant i <= |sections| && c == |Matching(sections[..i], kind)|
      {
        MatchingStep(sections, kind, i);
        if OfKind(sections[i], kind) {
          c := c + 1;
        }
        i := i + 1;
      }
      assert sections[..i] == sections;
    }

    /** The position of the idx-th section of the type. */
    method NthOfKind(kind: Maybe<string>, idx: int) returns (r: Maybe<nat>)
      ensures var m := Matching(sections, kind); r == if 0 <= idx < |m| then Some(m[idx]) else None
    {
      var c, i := 0, 0;
      while i < |sections|
        invariant i <= |sections| && c == |Matching(sections[..i], kind)| && (0 <= idx ==> c <= idx)
      {
        MatchingStep(sections, kind, i);
        if OfKind(sections[i], kind) {
          if idx == c {
            MatchingGrows(sections, kind, i + 1);
            return Some(i);
          }
          c := c + 1;
        }
        i := i + 1;
      }
      assert sections[..i] == sections;
      return None;
    }

    /** uci_lookup_ext_section: the sections of the type are counted if the index is negative, then up to the index. */
    method LookupExtended(kind: Maybe<string>, index: int) returns (r: Maybe<nat>)
      ensures forall spelling :: r == Resolved(sections, Extended(spelling, kind, index))
    {
      var idx := index;
      if idx < 0 {
        var n := CountKind(kind);
        idx := idx + n;
      }
      r := NthOfKind(kind, idx);
    }

    /** uci_lookup_ptr and uci_expand_ptr */
    method Expand(ref: Ref, option: Maybe<string>, value: Maybe<string>) returns (p: Ptr)
      ensures p == Expanded(sections, ref, option, value)
    {
      var s: Maybe<nat>, o: Maybe<nat> := None, None;
      match ref {
        case Named(name) =>
          var i := LookupSection(name);
          s := if i < |sections| then Some(i) else None;
        case Extended(_, kind, index) =>
          s := LookupExtended(kind, index);
          assert s == Resolved(sections, ref);
      }
      if s.None? {
        return Ptr(ref.Spelled(), None, option, None, value);
      }
      if option.Some? {
        var j := LookupOption(s.value, option.value);
        o := if j < |sections[s.value].options| then Some(j) else None;
      }
      return Ptr(sections[s.value].name, s, option, o, value);
    }

    // ---- elements ----

    /** uci_alloc_option and uci_alloc_list: a new option at the end of a section. */
    method AllocOption(s: nat, name: string, value: Value)
      requires s < |sections|
      modifies this`sections
      ensures sections == WithOptions(old(sections), s, old(sections)[s].options + [Opt(name, value)])
    {
      sections := sections[s := sections[s].(options := sections[s].options + [Opt(name, value)])];
    }

    /** uci_free_option */
    method FreeOption(s: nat, o: nat)
      requires s < |sections| && o < |sections[s].options|
      modifies this`sections
      ensures sections == WithOptions(old(sections), s, Drop(old(sections)[s].options, o))
    {
      var os := sections[s].options;
      sections := sections[s := sections[s].(options := os[..o] + os[o + 1..])];
    }

    method SetItems(s: nat, o: nat, items: seq<string>)
      requires s < |sections| && o < |sections[s].options|
      modifies this`sections
      ensures var os := old(sections)[s].options;
              sections == WithOptions(old(sections), s, os[o := os[o].(value := Items(items))])
    {
      var os := sections[s].options;
      sections := sections[s := sections[s].(options := os[o := os[o].(value := Items(items))])];
    }

    // ---- mutators ----

    /** uci_delete */
    method Delete(internal: bool, p: Ptr) returns (r: Status)
      requires Fits(sections, p)
      modifies this
      ensures var out := Deleting(old(sections), p);
              sections == out.sections && r == out.status && delta == old(delta) + Tracked(internal, out.delta)
    {
      if !p.Complete() {
        return NotFound;
      }
      if p.value.Some? && p.value.value != "" && p.o.Some? && sections[p.s.value].options[p.o.value].value.Items? {
        var scanned := Scan(p.value.value);
        if scanned.None? {
          return BadIndex;
        }
        var items, index, i := sections[p.s.value].options[p.o.value].value.items, scanned.value, 0;
        while i < |items|
          invariant i <= |items| && index == scanned.value - i
          invariant scanned.value < 0 || i <= scanned.value
        {
          if index == 0 {
            Log(internal, Remove, p.section, p.option, p.value);
            SetItems(p.s.value, p.o.value, items[..i] + items[i + 1..]);
            return Done;
          }
          index, i := index - 1, i + 1;
        }
        return Done;
      }
      Log(internal, Remove, p.section, p.option, None);
      if p.o.Some? {
        FreeOption(p.s.value, p.o.value);
      } else {
        sections := sections[..p.s.value] + sections[p.s.value + 1..];
      }
      return Done;
    }

    /** uci_set */
    method Set(internal: bool, p: Ptr) returns (r: Status)
      requires Fits(sections, p)
      modifies this
      ensures var out := Setting(old(sections), p);
              sections == out.sections && r == out.status && delta == old(delta) + Tracked(internal, out.delta)
    {
      if p.value.None? || !(p.s.Some? || p.option.None?) {
        return Invalid;
      }
      var v := p.value.value;
      if p.option.None? && v != "" && !ValidType(v) {
        return Invalid;
      }
      if v == "" {
        if !p.Complete() {
          return Done;
        }
        r := Delete(internal, p);
        return;
      }
      if p.o.None? && p.option.Some? {
        AllocOption(p.s.value, p.option.value, Text(v));
      } else if p.s.None? {
        sections := sections + [Section(p.section, v, p.section == "", [])];
      } else if p.o.Some? {
        if sections[p.s.value].options[p.o.value].value == Text(v) {
          return Done;
        }
        FreeOption(p.s.value, p.o.value);
        AllocOption(p.s.value, p.option.value, Text(v));
      } else {
        sections := sections[p.s.value := sections[p.s.value].(kind := v)];
      }
      Log(internal, Change, p.section, p.option, p.value);
      return Done;
    }

    /** uci_add_list: a string becomes a list of itself and the new item. */
    method AddList(internal: bool, p: Ptr) returns (r: Status)
      requires Fits(sections, p)
      modifies this
      ensures var out := ListAdding(old(sections), p);
              sections == out.sections && r == out.status && delta == old(delta) + Tracked(internal, out.delta)
    {
      if p.s.None? || p.option.None? || p.value.None? {
        return Invalid;
      }
      var s, v := p.s.value, p.value.value;
      if p.o.None? {
        AllocOption(s, p.option.value, Items([v]));
      } else {
        match sections[s].options[p.o.value].value
        case Text(t) =>
          FreeOption(s, p.o.value);
          AllocOption(s, p.option.value, Items([t, v]));
        case Items(items) =>
          SetItems(s, p.o.value, items + [v]);
      }
      Log(internal, ListAdd, p.section, p.option, p.value);
      return Done;
    }

    /** uci_del_list */
    method DelList(internal: bool, p: Ptr) returns (r: Status)
      requires Fits(sections, p)
      modifies this
      ensures var out := ListDeleting(old(sections), p);
              sections == out.sections && r == out.status && delta == old(delta) + Tracked(internal, out.delta)
    {
      if p.s.None? || p.value.None? {
        return Invalid;
      }
      if p.o.None? || !sections[p.s.value].options[p.o.value].value.Items? {
        return Done;
      }
      Log(internal, ListDel, p.section, p.option, p.value);
      var items, kept, i := sections[p.s.value].options[p.o.value].value.items, [], 0;
      while i < |items|
        invariant i <= |items| && kept == Filtered(items[..i], p.value.value)
      {
        assert items[..i + 1][..i] == items[..i];
        if items[i] != p.value.value {
          kept := kept + [items[i]];
        }
        i := i + 1;
      }
      assert items[..i] == items;
      SetItems(p.s.value, p.o.value, kept);
      return Done;
    }

    /** uci_rename */
    method Rename(internal: bool, p: Ptr) returns (r: Status)
      requires Fits(sections, p)
      modifies this
      ensures var out := Renaming(old(sections), p);
              sections == out.sections && r == out.status && delta == old(delta) + Tracked(internal, out.delta)
    {
      if !p.Complete() {
        return NotFound;
      }
      if p.value.None? {
        return Invalid;
      }
      Log(internal, Command.Rename, p.section, p.option, p.value);
      var s := sections[p.s.value];
      if p.o.Some? {
        s := s.(options := s.options[p.o.value := s.options[p.o.value].(name := p.value.value)]);
      } else {
        s := s.(name := p.value.value, anonymous := false);
      }
      sections := sections[p.s.value := s];
      return Done;
    }

    /** uci_reorder_section and uci_list_set_pos */
    method Reorder(internal: bool, i: nat, pos: int)
      requires i < |sections|
      modifies this
      ensures var out := Reordering(old(sections), i, pos);
              sections == out.sections && delta == old(delta) + Tracked(internal, out.delta)
    {
      var s := sections[i];
      var rest := sections[..i] + sections[i + 1..];
      var k, left := 0, pos;
      while k < |rest| && left > 0
        invariant k <= |rest| && left == pos - k && k <= (if pos < 0 then 0 else pos)
      {
        k, left := k + 1, left - 1;
      }
      sections := rest[..k] + [s] + rest[k..];
      Log(internal, Command.Reorder, s.name, None, Some(Decimal(pos)));
    }

    /** uci_add_section; the generated name is given. A reader finds the section as the last one of its type, and every
        value that could be read before. */
    method AddSection(internal: bool, kind: string, name: string)
      modifies this
      ensures var out := Adding(old(sections), kind, name);
              sections == out.sections && delta == old(delta) + Tracked(internal, out.delta)
      ensures Resolved(sections, Extended("", Some(kind), -1)) == Some(old(|sections|))
      ensures forall s, o :: Get(sections, s, o) == old(Get(sections, s, o))
    {
      ghost var was := sections;
      sections := sections + [Section(name, kind, true, [])];
      Log(internal, Add, name, None, Some(kind));
      forall s, o
        ensures Get(sections, s, o) == Get(was, s, o) && Resolved(sections, Extended("", Some(kind), -1)) == Some(|was|)
      {
        AddSectionThenGet(was, kind, name, "", s, o);
      }
    }

    // ---- replay ----

    /** uci_parse_delta_line */
    method ReplayLine(d: Delta)
      modifies this
      ensures sections == ReplayedOne(old(sections), d) && delta == old(delta)
    {
      if !Accepted(d) {
        return;
      }
      var p := Expand(Named(d.section), d.option, d.value);
      match d.cmd
      case Reorder =>
        if p.s.Some? {
          this.Reorder(true, p.s.value, Number(d.value.value));
        }
      case Rename => var r := this.Rename(true, p);
      case Remove => var r := Delete(true, p);
      case ListAdd => var r := AddList(true, p);
      case ListDel => var r := DelList(true, p);
      case Change => var r := Set(true, p);
      case Add =>
        var last := if p.s.Some? then p.s.value else |sections|;
        var r := Set(true, p);
        if r.Done? && d.option.None? && d.value.value != "" {
          sections := sections[last := sections[last].(anonymous := true)];
        }
    }

    /** uci_parse_delta */
    method Replay(ds: seq<Delta>)
      modifies this
      ensures sections == Replayed(old(sections), ds) && delta == old(delta)
    {
      var i := 0;
      while i < |ds|
        invariant i <= |ds| && delta == old(delta)
        invariant Replayed(sections, ds[i..]) == Replayed(old(sections), ds)
      {
        ReplayLine(ds[i]);
        assert ds[i..][1..] == ds[i + 1..];
        i := i + 1;
      }
    }
  }

  lemma MatchingStep(ss: seq<Section>, kind: Maybe<string>, i: nat)
    requires i < |ss|
    ensures Matching(ss[..i + 1], kind) == Matching(ss[..i], kind) + if OfKind(ss[i], kind) then [i] else []
  {
    assert ss[..i + 1][..i] == ss[..i];
  }

  /** The positions of one type in a prefix start the positions in the whole. */
  lemma {:induction false} MatchingGrows(ss: seq<Section>, kind: Maybe<string>, n: nat)
    requires n <= |ss|
    ensures Matching(ss[..n], kind) <= Matching(ss, kind)
    decreases |ss| - n
  {
    if n < |ss| {
      MatchingGrows(ss, kind, n + 1);
      assert ss[..n + 1][..n] == ss[..n];
    } else {
      assert ss[..n] == ss;
    }
  }
}
