/** Replaying recorded deltas (delta.c) does to a package what the recorded calls did. */
module UciReplay {
  import opened Common
  import opened UciStore

  /** The records that uci_parse_ptr and uci_parse_delta_tuple let through. */
  predicate Accepted(d: Delta) {
    && ValidName(d.section) && (d.option.Some? ==> ValidName(d.option.value))
    && (d.value.Some? ==> ValidText(d.value.value))
    && match d.cmd
       case Reorder => d.value.Some? && d.option.None?
       case Rename => d.value.Some? && ValidName(d.value.value)
       case ListAdd => d.option.Some?
       case ListDel => d.option.Some?
       case _ => true
  }

  /** strtoul */
  function Number(s: string): int {
    var n := Scan(s);
    if n.None? then 0 else n.value
  }

  /** uci_parse_delta_line; a record that fails changes nothing. */
  function ReplayedOne(ss: seq<Section>, d: Delta): seq<Section> {
    if !Accepted(d) then ss
    else
      var p := Expanded(ss, Named(d.section), d.option, d.value);
      match d.cmd
      case Reorder => if p.s.None? then ss else Reordering(ss, p.s.value, Number(d.value.value)).sections
      case Rename => Renaming(ss, p).sections
      case Remove => Deleting(ss, p).sections
      case ListAdd => ListAdding(ss, p).sections
      case ListDel => ListDeleting(ss, p).sections
      case Change => Setting(ss, p).sections
      case Add =>
        var out, i := Setting(ss, p), if p.s.Some? then p.s.value else |ss|;
        if out.status.Done? && d.option.None? && d.value.value != "" then
          out.sections[i := out.sections[i].(anonymous := true)]
        else out.sections
  }

  function Replayed(ss: seq<Section>, ds: seq<Delta>): seq<Section>
    decreases |ds|
  {
    if ds == [] then ss else Replayed(ReplayedOne(ss, ds[0]), ds[1..])
  }

  lemma {:induction false} ReplayedSum(ss: seq<Section>, a: seq<Delta>, b: seq<Delta>)
    ensures Replayed(ss, a + b) == Replayed(Replayed(ss, a), b)
    decreases |a|
  {
    if a == [] {
      assert a + b == b;
    } else {
      assert (a + b)[1..] == a[1..] + b;
      ReplayedSum(ReplayedOne(ss, a[0]), a[1..], b);
    }
  }

  // ---- the seven mutators ----

  datatype Op =
    | SetValue(ref: Ref, option: Maybe<string>, value: Maybe<string>)
    | Delete(ref: Ref, option: Maybe<string>, value: Maybe<string>)
    | RenameTo(ref: Ref, option: Maybe<string>, value: Maybe<string>)
    | AddItem(ref: Ref, option: Maybe<string>, value: Maybe<string>)
    | DelItem(ref: Ref, option: Maybe<string>, value: Maybe<string>)
    | AddSection(kind: string, name: string)
    | MoveTo(ref: Ref, pos: int)

  function Target(ss: seq<Section>, op: Op): (p: Ptr)
    requires !op.AddSection?
    ensures Fits(ss, p)
  {
    if op.MoveTo? then Expanded(ss, op.ref, None, None) else Expanded(ss, op.ref, op.option, op.value)
  }

  function Applied(ss: seq<Section>, op: Op): Outcome {
    match op
    case SetValue(_, _, _) => Setting(ss, Target(ss, op))
    case Delete(_, _, _) => Deleting(ss, Target(ss, op))
    case RenameTo(_, _, _) => Renaming(ss, Target(ss, op))
    case AddItem(_, _, _) => ListAdding(ss, Target(ss, op))
    case DelItem(_, _, _) => ListDeleting(ss, Target(ss, op))
    case AddSection(kind, name) => Adding(ss, kind, name)
    case MoveTo(_, pos) =>
      var p := Target(ss, op);
      if p.s.None? then Outcome(ss, [], NotFound) else Reordering(ss, p.s.value, pos)
  }

  /** A run of calls: the sections at its end and all records. */
  function AppliedAll(ss: seq<Section>, ops: seq<Op>): (seq<Section>, seq<Delta>)
    decreases |ops|
  {
    if ops == [] then (ss, [])
    else
      var one := Applied(ss, ops[0]);
      var rest := AppliedAll(one.sections, ops[1..]);
      (rest.0, one.delta + rest.1)
  }

  // ---- packages in which names tell siblings apart ----

  predicate SoundOptions(os: seq<Opt>) {
    && (forall i :: 0 <= i < |os| ==> ValidName(os[i].name))
    && (forall i, j :: 0 <= i < j < |os| ==> os[i].name != os[j].name)
  }

  predicate Sound(ss: seq<Section>) {
    && (forall i :: 0 <= i < |ss| ==> ValidName(ss[i].name) && SoundOptions(ss[i].options))
    && (forall i, j :: 0 <= i < j < |ss| ==> ss[i].name != ss[j].name)
  }

  lemma FindsItself(ss: seq<Section>, i: nat)
    requires Sound(ss) && i < |ss|
    ensures FindSection(ss, ss[i].name) == i
  {
  }

  /** The name of the pointer's section, if it has one, leads to that section. */
  predicate Own(ss: seq<Section>, p: Ptr) { p.s.Some? ==> FindSection(ss, p.section) == p.s.value }

  /** Then looking a pointer up again by the names it was given finds the same elements. */
  lemma {:induction false} SameTarget(ss: seq<Section>, ref: Ref, option: Maybe<string>, value: Maybe<string>,
      value': Maybe<string>)
    ensures var p := Expanded(ss, ref, option, value);
            Own(ss, p) && (p.s.Some? || ValidName(p.section)) ==>
              Expanded(ss, Named(p.section), option, value') == p.(value := value')
  {
    var s := Resolved(ss, ref);
    if s.None? {
      assert ref.Extended? ==> ref.Spelled()[0] == '@' && '@' in ref.Spelled();
    }
  }

  // ---- one call ----

  lemma {:induction false} AccumulateDigits(n: nat, s: string)
    ensures Accumulate(0, Digits(n) + s) == Accumulate(n, s)
    decreases n
  {
    var d := ('0' as int + n % 10) as char;
    assert ([d] + s)[1..] == s;
    if n < 10 {
      assert Digits(n) + s == [d] + s;
    } else {
      assert Digits(n) + s == Digits(n / 10) + ([d] + s);
      AccumulateDigits(n / 10, [d] + s);
    }
  }

  lemma {:induction false} DigitsOnly(n: nat)
    ensures Digits(n) != "" && forall c <- Digits(n) :: Digit(c)
  {
    if n >= 10 {
      DigitsOnly(n / 10);
    }
  }

  /** The position in a record reads back. */
  lemma {:induction false} DecimalReads(n: int)
    ensures Scan(Decimal(n)) == Some(n) && Number(Decimal(n)) == n && ValidText(Decimal(n))
  {
    var m := if n < 0 then -n else n;
    AccumulateDigits(m, "");
    DigitsOnly(m);
    assert Digits(m) + "" == Digits(m);
    if n < 0 {
      assert Decimal(n)[1..] == Digits(m);
    }
  }

  lemma {:induction false} AddReplays(ss: seq<Section>, kind: string, name: string)
    ensures var out := Adding(ss, kind, name);
            ReplayedOne(ss, out.delta[0]) == out.sections
            <==> Accepted(out.delta[0]) && ValidType(kind) && FindSection(ss, name) == |ss|
  {
  }

  /** The record a call logged from pointer p, and the pointer it makes on replay. */
  predicate Logged(out: Outcome, cmd: Command, p: Ptr) {
    |out.delta| == 1 && out.delta[0] == Delta(cmd, p.section, p.option, out.delta[0].value)
  }

  function Reread(p: Ptr, out: Outcome): Ptr
    requires |out.delta| == 1
  {
    p.(value := out.delta[0].value)
  }

  lemma DeletingAgain(ss: seq<Section>, p: Ptr)
    requires Fits(ss, p) && Deleting(ss, p).delta != []
    ensures var out := Deleting(ss, p);
            Logged(out, Remove, p) && p.s.Some? && Deleting(ss, Reread(p, out)).sections == out.sections
  {
  }

  lemma SettingAgain(ss: seq<Section>, p: Ptr)
    requires Fits(ss, p) && Setting(ss, p).delta != []
    ensures var out := Setting(ss, p);
            || (Logged(out, Change, p) && Setting(ss, Reread(p, out)).sections == out.sections)
            || (Logged(out, Remove, p) && Deleting(ss, Reread(p, out)).sections == out.sections)
  {
  }

  lemma ListAddingAgain(ss: seq<Section>, p: Ptr)
    requires Fits(ss, p) && ListAdding(ss, p).delta != []
    ensures Logged(ListAdding(ss, p), ListAdd, p) && Reread(p, ListAdding(ss, p)) == p
  {
  }

  lemma ListDeletingAgain(ss: seq<Section>, p: Ptr)
    requires Fits(ss, p) && ListDeleting(ss, p).delta != []
    ensures Logged(ListDeleting(ss, p), ListDel, p) && Reread(p, ListDeleting(ss, p)) == p
  {
  }

  lemma RenamingAgain(ss: seq<Section>, p: Ptr)
    requires Fits(ss, p) && Renaming(ss, p).delta != []
    ensures Logged(Renaming(ss, p), Rename, p) && Reread(p, Renaming(ss, p)) == p
  {
  }

  /** The one record of a call, if it is accepted, does on replay what the call did. */
  predicate Redone(ss: seq<Section>, out: Outcome) {
    |out.delta| == 1 && (Accepted(out.delta[0]) ==> ReplayedOne(ss, out.delta[0]) == out.sections)
  }

  lemma {:induction false} SetRedone(ss: seq<Section>, ref: Ref, option: Maybe<string>, value: Maybe<string>)
    requires Own(ss, Expanded(ss, ref, option, value)) && Setting(ss, Expanded(ss, ref, option, value)).delta != []
    ensures Redone(ss, Setting(ss, Expanded(ss, ref, option, value)))
  {
    var p := Expanded(ss, ref, option, value);
    SettingAgain(ss, p);
    SameTarget(ss, ref, option, value, Setting(ss, p).delta[0].value);
  }

  lemma {:induction false} DeleteRedone(ss: seq<Section>, ref: Ref, option: Maybe<string>, value: Maybe<string>)
    requires Own(ss, Expanded(ss, ref, option, value)) && Deleting(ss, Expanded(ss, ref, option, value)).delta != []
    ensures Redone(ss, Deleting(ss, Expanded(ss, ref, option, value)))
  {
    var p := Expanded(ss, ref, option, value);
    DeletingAgain(ss, p);
    SameTarget(ss, ref, option, value, Deleting(ss, p).delta[0].value);
  }

  lemma {:induction false} ListAddRedone(ss: seq<Section>, ref: Ref, option: Maybe<string>, value: Maybe<string>)
    requires Own(ss, Expanded(ss, ref, option, value)) && ListAdding(ss, Expanded(ss, ref, option, value)).delta != []
    ensures Redone(ss, ListAdding(ss, Expanded(ss, ref, option, value)))
  {
    var p := Expanded(ss, ref, option, value);
    ListAddingAgain(ss, p);
    SameTarget(ss, ref, option, value, value);
  }

  lemma {:induction false} ListDelRedone(ss: seq<Section>, ref: Ref, option: Maybe<string>, value: Maybe<string>)
    requires Own(ss, Expanded(ss, ref, option, value)) && ListDeleting(ss, Expanded(ss, ref, option, value)).delta != []
    ensures Redone(ss, ListDeleting(ss, Expanded(ss, ref, option, value)))
  {
    var p := Expanded(ss, ref, option, value);
    ListDeletingAgain(ss, p);
    SameTarget(ss, ref, option, value, value);
  }

  lemma {:induction false} RenameRedone(ss: seq<Section>, ref: Ref, option: Maybe<string>, value: Maybe<string>)
    requires Own(ss, Expanded(ss, ref, option, value)) && Renaming(ss, Expanded(ss, ref, option, value)).delta != []
    ensures Redone(ss, Renaming(ss, Expanded(ss, ref, option, value)))
  {
    var p := Expanded(ss, ref, option, value);
    RenamingAgain(ss, p);
    SameTarget(ss, ref, option, value, value);
  }

  lemma {:induction false} MoveRedone(ss: seq<Section>, i: nat, pos: int)
    requires i < |ss| && FindSection(ss, ss[i].name) == i
    ensures Redone(ss, Reordering(ss, i, pos))
  {
    DecimalReads(pos);
  }

  lemma {:induction false} OpReplays(ss: seq<Section>, op: Op)
    requires !op.AddSection? && Own(ss, Target(ss, op)) && Applied(ss, op).delta != []
    ensures Redone(ss, Applied(ss, op))
  {
    match op
    case MoveTo(ref, pos) => MoveRedone(ss, Target(ss, op).s.value, pos);
    case SetValue(ref, option, value) => SetRedone(ss, ref, option, value);
    case Delete(ref, option, value) => DeleteRedone(ss, ref, option, value);
    case AddItem(ref, option, value) => ListAddRedone(ss, ref, option, value);
    case DelItem(ref, option, value) => ListDelRedone(ss, ref, option, value);
    case RenameTo(ref, option, value) => RenameRedone(ss, ref, option, value);
  }

  // ---- calls that keep names apart ----

  /** Calls with valid names and texts that keep sibling names apart. */
  predicate Proper(ss: seq<Section>, op: Op) {
    match op
    case SetValue(_, option, value) =>
      && (option.Some? ==> ValidName(option.value)) && (value.Some? ==> ValidText(value.value))
      && (option.None? ==> ValidName(Target(ss, op).section))
    case Delete(_, _, value) => value.Some? ==> ValidText(value.value)
    case RenameTo(_, _, value) =>
      var p := Target(ss, op);
      p.Complete() && value.Some? ==> ValidName(value.value) && Unused(ss, p, value.value)
    case AddItem(_, option, value) =>
      (option.Some? ==> ValidName(option.value)) && (value.Some? ==> ValidText(value.value))
    case DelItem(_, _, value) => value.Some? ==> ValidText(value.value)
    case AddSection(kind, name) => ValidType(kind) && ValidName(name) && FindSection(ss, name) == |ss|
    case MoveTo(_, _) => true
  }

  /** No sibling of the pointer's element has this name. */
  predicate Unused(ss: seq<Section>, p: Ptr, name: string)
    requires Fits(ss, p) && p.s.Some?
  {
    if p.o.Some? then
      var os := ss[p.s.value].options;
      forall j :: 0 <= j < |os| && j != p.o.value ==> os[j].name != name
    else forall j :: 0 <= j < |ss| && j != p.s.value ==> ss[j].name != name
  }

  lemma SoundWith(ss: seq<Section>, i: nat, s: Section)
    requires Sound(ss) && i < |ss| && ValidName(s.name) && SoundOptions(s.options)
    requires forall j :: 0 <= j < |ss| && j != i ==> ss[j].name != s.name
    ensures Sound(ss[i := s])
  {
  }

  lemma SoundMore(ss: seq<Section>, s: Section)
    requires Sound(ss) && ValidName(s.name) && SoundOptions(s.options) && FindSection(ss, s.name) == |ss|
    ensures Sound(ss + [s])
  {
  }

  lemma SoundLess(ss: seq<Section>, i: nat)
    requires Sound(ss) && i < |ss|
    ensures Sound(Drop(ss, i))
  {
  }

  lemma SoundMoved(ss: seq<Section>, i: nat, pos: int)
    requires Sound(ss) && i < |ss|
    ensures Sound(Moved(ss, i, pos))
  {
    var rest := Drop(ss, i);
    SoundLess(ss, i);
    assert forall j :: 0 <= j < |rest| ==> rest[j].name != ss[i].name;
    SoundPut(rest, ss[i], Place(pos, |rest|));
  }

  lemma SoundPut(ss: seq<Section>, s: Section, k: nat)
    requires Sound(ss) && ValidName(s.name) && SoundOptions(s.options) && k <= |ss|
    requires forall j :: 0 <= j < |ss| ==> ss[j].name != s.name
    ensures Sound(ss[..k] + [s] + ss[k..])
  {
  }

  /** The option values may change, and an option may move to the end or go. */
  lemma SoundDropped(os: seq<Opt>, i: nat, v: Value)
    requires SoundOptions(os) && i < |os|
    ensures SoundOptions(Drop(os, i)) && SoundOptions(Drop(os, i) + [Opt(os[i].name, v)])
    ensures SoundOptions(os[i := os[i].(value := v)])
  {
  }

  lemma SoundReplaced(ss: seq<Section>, p: Ptr, v: Value)
    requires Sound(ss) && Fits(ss, p) && p.s.Some? && p.option.Some? && ValidName(p.option.value)
    requires p.o.None? ==> FindOption(ss[p.s.value].options, p.option.value) == |ss[p.s.value].options|
    ensures Sound(Replaced(ss, p, v))
  {
    var os := ss[p.s.value].options;
    if p.o.Some? {
      SoundDropped(os, p.o.value, v);
    }
    SoundWith(ss, p.s.value, Replaced(ss, p, v)[p.s.value]);
  }

  lemma SoundRevalued(ss: seq<Section>, p: Ptr, v: Value)
    requires Sound(ss) && Fits(ss, p) && p.o.Some?
    ensures Sound(Revalued(ss, p, v))
  {
    SoundDropped(ss[p.s.value].options, p.o.value, v);
    SoundWith(ss, p.s.value, Revalued(ss, p, v)[p.s.value]);
  }

  lemma SoundDeleting(ss: seq<Section>, p: Ptr)
    requires Sound(ss) && Fits(ss, p)
    ensures Sound(Deleting(ss, p).sections)
  {
    if p.Complete() {
      var s := ss[p.s.value];
      if p.o.Some? {
        var v := Current(ss, p);
        SoundDropped(s.options, p.o.value, v);
        SoundWith(ss, p.s.value, s.(options := Drop(s.options, p.o.value)));
        if v.Items? && p.value.Some? && Scan(p.value.value).Some? && 0 <= Scan(p.value.value).value < |v.items| {
          SoundRevalued(ss, p, Items(Drop(v.items, Scan(p.value.value).value)));
        }
      } else {
        SoundLess(ss, p.s.value);
      }
    }
  }

  lemma SoundRenaming(ss: seq<Section>, p: Ptr)
    requires Sound(ss) && Fits(ss, p)
    requires p.Complete() && p.value.Some? ==> ValidName(p.value.value) && Unused(ss, p, p.value.value)
    ensures Sound(Renaming(ss, p).sections)
  {
    if p.Complete() && p.value.Some? {
      SoundWith(ss, p.s.value, Renaming(ss, p).sections[p.s.value]);
    }
  }

  /** A section that was not found and has a valid name is not there. */
  lemma Missing(ss: seq<Section>, ref: Ref, option: Maybe<string>, value: Maybe<string>)
    ensures var p := Expanded(ss, ref, option, value);
            p.s.None? && ValidName(p.section) ==> FindSection(ss, p.section) == |ss|
  {
    assert ref.Extended? ==> ref.Spelled()[0] == '@' && '@' in ref.Spelled();
  }

  /** An option that was not found is not there. */
  predicate Sought(ss: seq<Section>, p: Ptr)
    requires Fits(ss, p)
  {
    p.s.Some? && p.option.Some? && p.o.None? ==>
      FindOption(ss[p.s.value].options, p.option.value) == |ss[p.s.value].options|
  }

  lemma SoundSetting(ss: seq<Section>, p: Ptr)
    requires Sound(ss) && Fits(ss, p) && Sought(ss, p) && (p.option.Some? ==> ValidName(p.option.value))
    requires p.s.None? ==> ValidName(p.section) && FindSection(ss, p.section) == |ss|
    ensures Sound(Setting(ss, p).sections)
  {
    SoundDeleting(ss, p);
    if p.value.Some? {
      var v := p.value.value;
      if p.option.Some? && p.s.Some? {
        SoundReplaced(ss, p, Text(v));
      } else if p.s.Some? {
        SoundWith(ss, p.s.value, ss[p.s.value].(kind := v));
      } else {
        SoundMore(ss, Section(p.section, v, p.section == "", []));
      }
    }
  }

  lemma SoundListAdding(ss: seq<Section>, p: Ptr)
    requires Sound(ss) && Fits(ss, p) && Sought(ss, p) && (p.option.Some? ==> ValidName(p.option.value))
    ensures Sound(ListAdding(ss, p).sections)
  {
    if p.s.Some? && p.option.Some? && p.value.Some? {
      var v := p.value.value;
      if p.o.None? {
        SoundReplaced(ss, p, Items([v]));
      } else {
        match Current(ss, p)
        case Text(t) => SoundReplaced(ss, p, Items([t, v]));
        case Items(items) => SoundRevalued(ss, p, Items(items + [v]));
      }
    }
  }

  lemma SoundListDeleting(ss: seq<Section>, p: Ptr)
    requires Sound(ss) && Fits(ss, p)
    ensures Sound(ListDeleting(ss, p).sections)
  {
    if p.o.Some? && Current(ss, p).Items? && p.value.Some? {
      SoundRevalued(ss, p, Items(Filtered(Current(ss, p).items, p.value.value)));
    }
  }

  lemma {:induction false} ProperKeeps(ss: seq<Section>, op: Op)
    requires Sound(ss) && Proper(ss, op)
    ensures Sound(Applied(ss, op).sections)
  {
    match op
    case SetValue(ref, option, value) =>
      Missing(ss, ref, option, value);
      if option.None? || Target(ss, op).s.Some? {
        SoundSetting(ss, Target(ss, op));
      }
    case Delete(_, _, _) => SoundDeleting(ss, Target(ss, op));
    case RenameTo(_, _, _) => SoundRenaming(ss, Target(ss, op));
    case AddItem(_, _, _) => SoundListAdding(ss, Target(ss, op));
    case DelItem(_, _, _) => SoundListDeleting(ss, Target(ss, op));
    case AddSection(kind, name) => SoundMore(ss, Section(name, kind, true, []));
    case MoveTo(_, pos) =>
      var p := Target(ss, op);
      if p.s.Some? {
        SoundMoved(ss, p.s.value, pos);
      }
  }

  predicate AllProper(ss: seq<Section>, ops: seq<Op>)
    decreases |ops|
  {
    ops == [] || (Proper(ss, ops[0]) && AllProper(Applied(ss, ops[0]).sections, ops[1..]))
  }
}
