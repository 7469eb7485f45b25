/** When replaying the records of a call redoes the call: exactly, on every package, and in terms of what the caller can
    look up before the call (list.c, delta.c). */
module UciExact {
  import opened Common
  import opened UciStore
  import opened UciReplay
  import opened UciLaws

  /** The call is about one item of a list. */
  predicate ItemWise(ss: seq<Section>, p: Ptr)
    requires Fits(ss, p)
  {
    p.value.Some? && p.value.value != "" && p.o.Some? && Current(ss, p).Items?
  }

  /** The call is refused or has nothing to do. */
  predicate Idle(ss: seq<Section>, op: Op) {
    match op
    case AddSection(_, _) => false
    case MoveTo(_, _) => Target(ss, op).s.None?
    case RenameTo(_, _, value) => !Target(ss, op).Complete() || value.None?
    case AddItem(_, option, value) => Target(ss, op).s.None? || option.None? || value.None?
    case DelItem(_, _, value) =>
      var p := Target(ss, op);
      p.o.None? || value.None? || !Current(ss, p).Items?
    case Delete(_, _, value) =>
      var p := Target(ss, op);
      !p.Complete()
        || (ItemWise(ss, p) && var x := Scan(value.value); x.None? || !(0 <= x.value < |Current(ss, p).items|))
    case SetValue(_, option, value) =>
      var p := Target(ss, op);
      || value.None? || (p.s.None? && option.Some?) || (option.None? && value.value != "" && !ValidType(value.value))
      || (value.value == "" && !p.Complete()) || (value.value != "" && p.o.Some? && Current(ss, p) == Text(value.value))
  }

  /** Its names and its text can be written to a record and read back. */
  predicate Sayable(ss: seq<Section>, op: Op)
    requires !Idle(ss, op)
  {
    match op
    case AddSection(kind, name) => ValidName(name) && ValidType(kind)
    case MoveTo(_, _) => ValidName(Target(ss, op).section)
    case RenameTo(_, option, value) =>
      ValidName(Target(ss, op).section) && (option.Some? ==> ValidName(option.value)) && ValidName(value.value)
    case AddItem(_, option, value) =>
      ValidName(Target(ss, op).section) && ValidName(option.value) && ValidText(value.value)
    case DelItem(_, option, value) =>
      ValidName(Target(ss, op).section) && ValidName(option.value) && ValidText(value.value)
    case Delete(_, option, value) =>
      var p := Target(ss, op);
      ValidName(p.section) && (option.Some? ==> ValidName(option.value)) && (ItemWise(ss, p) ==> ValidText(value.value))
    case SetValue(_, option, value) =>
      ValidName(Target(ss, op).section) && (option.Some? ==> ValidName(option.value))
        && (value.value == "" || ValidText(value.value))
  }

  /** The elements from position i to position j, in either order, are all the same. */
  predicate Level<T(==)>(s: seq<T>, i: nat, j: nat)
    requires i < |s| && j < |s|
  {
    forall m :: 0 <= m < |s| && (i <= m <= j || j <= m <= i) ==> s[m] == s[i]
  }

  /** The call changes nothing, although it logs a record. */
  predicate Keeps(ss: seq<Section>, op: Op)
    requires !Idle(ss, op)
  {
    match op
    case SetValue(_, option, value) =>
      var p := Target(ss, op);
      option.None? && p.s.Some? && value.value != "" && value.value == ss[p.s.value].kind
    case RenameTo(_, option, value) =>
      var p := Target(ss, op);
      if option.Some? then option.value == value.value else p.section == value.value && !ss[p.s.value].anonymous
    case DelItem(_, _, value) => value.value !in Current(ss, Target(ss, op)).items
    case MoveTo(_, pos) => Level(ss, Target(ss, op).s.value, Place(pos, |ss| - 1))
    case _ => false
  }

  /** The names in the record lead to the element the call was about, or to an earlier section with which it makes no
      difference. */
  predicate Agrees(ss: seq<Section>, op: Op)
    requires !Idle(ss, op)
  {
    if op.AddSection? then FindSection(ss, op.name) == |ss|
    else
      var p := Target(ss, op);
      p.s.None? || Own(ss, p) || EarlierAgrees(ss, op, p.s.value, FindSection(ss, p.section))
  }

  predicate EarlierAgrees(ss: seq<Section>, op: Op, i: nat, j: nat)
    requires !Idle(ss, op) && i < |ss| && j < |ss|
  {
    match op
    case MoveTo(_, _) => Level(ss, j, i)
    case Delete(_, option, _) => option.None? && Level(ss, j, i)
    case SetValue(_, option, value) =>
      if value.value == "" then option.None? && Level(ss, j, i) else Keeps(ss, op) && ss[j].kind == value.value
    case RenameTo(_, option, _) => Keeps(ss, op) && (option.Some? || !ss[j].anonymous)
    case DelItem(_, option, value) =>
      var v := GetOption(ss[j].options, option.value);
      Keeps(ss, op) && (v.Some? && v.value.Items? ==> value.value !in v.value.items)
    case _ => false
  }

  /** What a caller can look up before the call. */
  predicate Replayable(ss: seq<Section>, op: Op) {
    Idle(ss, op) || if Sayable(ss, op) then Agrees(ss, op) else Keeps(ss, op)
  }

  // ---- what is logged ----

  lemma IdleExactly(ss: seq<Section>, op: Op)
    ensures Applied(ss, op).delta == [] <==> Idle(ss, op)
    ensures Idle(ss, op) ==> Applied(ss, op).sections == ss
    ensures |Applied(ss, op).delta| <= 1
  {
  }

  lemma SayableExactly(ss: seq<Section>, op: Op)
    requires !Idle(ss, op) && !op.AddSection?
    ensures |Applied(ss, op).delta| == 1 && (Accepted(Applied(ss, op).delta[0]) <==> Sayable(ss, op))
  {
    match op
    case MoveTo(_, pos) => DecimalReads(pos);
    case _ =>
  }

  // ---- what changes nothing ----

  lemma {:induction false} LevelSteps<T>(s: seq<T>, i: nat, j: nat)
    requires i <= j < |s| && forall m :: i <= m < j ==> s[m] == s[m + 1]
    ensures Level(s, i, j) && Level(s, j, i)
    decreases j - i
  {
    if i < j {
      LevelSteps(s, i + 1, j);
    }
  }

  /** Dropping one of two elements leaves the same sequence exactly if all between them are the same. */
  lemma DropSame<T>(s: seq<T>, i: nat, j: nat)
    requires i <= j < |s|
    ensures Drop(s, i) == Drop(s, j) <==> Level(s, i, j)
  {
    if Drop(s, i) == Drop(s, j) {
      assert forall m :: i <= m < j ==> Drop(s, i)[m] == s[m + 1] && Drop(s, j)[m] == s[m];
      LevelSteps(s, i, j);
    }
  }

  lemma LevelTurns<T>(s: seq<T>, i: nat, j: nat)
    requires i < |s| && j < |s|
    ensures Level(s, i, j) <==> Level(s, j, i)
  {
  }

  /** The same in any order. */
  lemma DropSameAny<T>(s: seq<T>, i: nat, j: nat)
    requires i < |s| && j < |s|
    ensures Drop(s, i) == Drop(s, j) <==> Level(s, i, j)
  {
    LevelTurns(s, i, j);
    if i <= j {
      DropSame(s, i, j);
    } else {
      DropSame(s, j, i);
    }
  }

  /** A sequence is what it is without an element, with that element put back. */
  lemma PutBack<T>(s: seq<T>, k: nat, rest: seq<T>, x: T)
    requires k < |s| && k <= |rest|
    ensures s == rest[..k] + [x] + rest[k..] <==> s[k] == x && Drop(s, k) == rest
  {
    var t := rest[..k] + [x] + rest[k..];
    assert Drop(t, k) == rest && t[k] == x;
    if s[k] == x && Drop(s, k) == rest {
      assert s == Drop(s, k)[..k] + [s[k]] + Drop(s, k)[k..];
    }
  }

  /** Moving an element changes nothing exactly if all on its way are the same. */
  lemma MovedSame<T>(s: seq<T>, i: nat, pos: int)
    requires i < |s|
    ensures Moved(s, i, pos) == s <==> Level(s, i, Place(pos, |s| - 1))
  {
    var k := Place(pos, |s| - 1);
    PutBack(s, k, Drop(s, i), s[i]);
    DropSameAny(s, i, k);
  }

  /** Moving one of two elements to the same place gives the same exactly if all between them are the same. */
  lemma MovedAlike<T>(s: seq<T>, i: nat, j: nat, pos: int)
    requires i < |s| && j < |s|
    ensures Moved(s, i, pos) == Moved(s, j, pos) <==> Level(s, i, j)
  {
    var k := Place(pos, |s| - 1);
    var t := Moved(s, j, pos);
    MoveThenPlace(s, j, pos);
    PutBack(t, k, Drop(s, i), s[i]);
    DropSameAny(s, i, j);
  }

  lemma LastDiffers<T>(s: seq<T>, o: nat, x: T)
    requires o < |s| && s[o] != x
    ensures Drop(s, o) + [x] != s
  {
    var now := Drop(s, o) + [x];
    if now == s {
      assert forall m :: o <= m < |s| - 1 ==> now[m] == s[m + 1];
      LevelSteps(s, o, |s| - 1);
    }
  }

  /** Putting an option at the end changes a section, unless the option was there already. */
  lemma ReplacedDiffers(ss: seq<Section>, p: Ptr, v: Value)
    requires Fits(ss, p) && p.s.Some? && p.option.Some? && (p.o.Some? ==> Current(ss, p) != v)
    ensures Replaced(ss, p, v)[p.s.value] != ss[p.s.value]
  {
    var os := ss[p.s.value].options;
    if p.o.Some? {
      LastDiffers(os, p.o.value, Opt(p.option.value, v));
    }
    assert Replaced(ss, p, v)[p.s.value].options
           == (if p.o.Some? then Drop(os, p.o.value) else os) + [Opt(p.option.value, v)];
  }

  lemma FilteredKeeps(items: seq<string>, v: string)
    ensures Filtered(items, v) == items <==> v !in items
  {
    FilteredSome(items, v);
    if v !in items {
      FilteredAll(items, v);
    }
  }

  lemma {:induction false} FilteredAll(items: seq<string>, v: string)
    requires v !in items
    ensures Filtered(items, v) == items
  {
    if items != [] {
      FilteredAll(items[..|items| - 1], v);
    }
  }

  lemma SetKeeps(ss: seq<Section>, op: Op)
    requires op.SetValue? && !Idle(ss, op)
    ensures Applied(ss, op).sections == ss <==> Keeps(ss, op)
  {
    var p := Target(ss, op);
    if op.value.value == "" {
      DeletingShorter(ss, p);
    } else if op.option.Some? {
      ReplacedDiffers(ss, p, Text(op.value.value));
    } else if p.s.Some? {
      assert Applied(ss, op).sections[p.s.value].kind == op.value.value;
    }
  }

  /** What is deleted is gone: a section, or part of one. */
  lemma DeletingShorter(ss: seq<Section>, p: Ptr)
    requires Fits(ss, p) && Deleting(ss, p).delta != []
    ensures var now := Deleting(ss, p).sections;
            && now != ss
            && if p.o.Some? then |now| == |ss| && now[p.s.value] != ss[p.s.value] else now == Drop(ss, p.s.value)
  {
    var now, i := Deleting(ss, p).sections, p.s.value;
    if p.o.Some? {
      var os := ss[i].options;
      assert |now[i].options| == |os| ==> |now[i].options[p.o.value].value.items| < |Current(ss, p).items|;
    }
  }

  lemma RenameKeeps(ss: seq<Section>, op: Op)
    requires op.RenameTo? && !Idle(ss, op)
    ensures Applied(ss, op).sections == ss <==> Keeps(ss, op)
  {
    var p, now := Target(ss, op), Applied(ss, op).sections;
    assert now[p.s.value] == ss[p.s.value] ==> now == ss;
    if p.o.Some? {
      var os := ss[p.s.value].options;
      assert now[p.s.value].options[p.o.value].name == op.value.value;
      assert op.option.value == op.value.value ==> os[p.o.value := os[p.o.value].(name := op.value.value)] == os;
    } else {
      assert now[p.s.value].name == op.value.value && !now[p.s.value].anonymous;
    }
  }

  lemma AddItemDiffers(ss: seq<Section>, op: Op)
    requires op.AddItem? && !Idle(ss, op)
    ensures var p, now := Target(ss, op), Applied(ss, op).sections; |now| == |ss| && now[p.s.value] != ss[p.s.value]
  {
    var p, v := Target(ss, op), op.value.value;
    if p.o.None? {
      ReplacedDiffers(ss, p, Items([v]));
    } else {
      match Current(ss, p)
      case Text(t) => ReplacedDiffers(ss, p, Items([t, v]));
      case Items(items) =>
        assert Revalued(ss, p, Items(items + [v]))[p.s.value].options[p.o.value].value == Items(items + [v]);
    }
  }

  lemma DelItemKeeps(ss: seq<Section>, op: Op)
    requires op.DelItem? && !Idle(ss, op)
    ensures Applied(ss, op).sections == ss <==> Keeps(ss, op)
  {
    var p := Target(ss, op);
    var items := Current(ss, p).items;
    FilteredKeeps(items, op.value.value);
    var now, os := Applied(ss, op).sections, ss[p.s.value].options;
    assert now[p.s.value].options[p.o.value].value == Items(Filtered(items, op.value.value));
    if op.value.value !in items {
      assert os[p.o.value := os[p.o.value].(value := Items(items))] == os;
    }
  }

  /** A call that logs something changes nothing exactly in these cases. */
  lemma KeepsExactly(ss: seq<Section>, op: Op)
    requires !Idle(ss, op)
    ensures Applied(ss, op).sections == ss <==> Keeps(ss, op)
  {
    match op
    case SetValue(_, _, _) => SetKeeps(ss, op);
    case Delete(_, _, _) => DeletingShorter(ss, Target(ss, op));
    case RenameTo(_, _, _) => RenameKeeps(ss, op);
    case AddItem(_, _, _) => AddItemDiffers(ss, op);
    case DelItem(_, _, _) => DelItemKeeps(ss, op);
    case AddSection(_, _) => assert |Applied(ss, op).sections| == |ss| + 1;
    case MoveTo(_, pos) => MovedSame(ss, Target(ss, op).s.value, pos);
  }

  // ---- records that lead to an earlier section ----

  /** Only the section at position k may have changed. */
  predicate Only(ss: seq<Section>, now: seq<Section>, k: nat) {
    |now| == |ss| && forall m :: 0 <= m < |ss| && m != k ==> now[m] == ss[m]
  }

  /** Changes to different sections come to the same only if both change nothing. */
  lemma OnlyBoth(ss: seq<Section>, a: seq<Section>, b: seq<Section>, i: nat, j: nat)
    requires Only(ss, a, i) && Only(ss, b, j) && i < |ss| && j < |ss| && i != j
    ensures a == b <==> a == ss && b == ss
  {
    if a == b {
      assert a[i] == b[i] == ss[i] && a[j] == b[j] == ss[j];
    }
  }

  /** The call for the section that its record leads to. */
  function Again(ss: seq<Section>, op: Op): Op
    requires !op.AddSection?
  {
    op.(ref := Named(Target(ss, op).section))
  }

  /** A call that renames, or deals with list items or one option, changes one section only. */
  lemma OneSection(ss: seq<Section>, op: Op)
    requires !op.AddSection? && !op.MoveTo? && Target(ss, op).s.Some?
    requires op.option.Some? || op.RenameTo? || (op.SetValue? && op.value.Some? && op.value.value != "")
    ensures Only(ss, Applied(ss, op).sections, Target(ss, op).s.value)
  {
  }

  lemma ReplayedAgain(ss: seq<Section>, op: Op)
    requires !Idle(ss, op) && Sayable(ss, op) && (op.RenameTo? || op.AddItem? || op.DelItem?)
    ensures ReplayedOne(ss, Applied(ss, op).delta[0]) == Applied(ss, Again(ss, op)).sections
  {
    SayableExactly(ss, op);
  }

  lemma ReplayedSet(ss: seq<Section>, op: Op)
    requires !Idle(ss, op) && Sayable(ss, op) && op.SetValue? && op.value.value != ""
    ensures ReplayedOne(ss, Applied(ss, op).delta[0]) == Applied(ss, Again(ss, op)).sections
  {
    SayableExactly(ss, op);
  }

  /** The section of a record is there, and not behind the one of the call. */
  lemma Earlier(ss: seq<Section>, op: Op)
    requires !op.AddSection? && Target(ss, op).s.Some?
    ensures var j := FindSection(ss, Target(ss, op).section);
            j <= Target(ss, op).s.value && Target(ss, Again(ss, op)).s == Some(j)
  {
  }

  /** What the call would change in the earlier section. */
  lemma KeepsAgain(ss: seq<Section>, op: Op)
    requires op.RenameTo? || op.AddItem? || op.DelItem? || (op.SetValue? && op.value.Some? && op.value.value != "")
    ensures Applied(ss, Again(ss, op)).sections == ss <==> Idle(ss, Again(ss, op)) || Keeps(ss, Again(ss, op))
  {
    if Idle(ss, Again(ss, op)) {
      IdleExactly(ss, Again(ss, op));
    } else {
      KeepsExactly(ss, Again(ss, op));
    }
  }

  lemma EarlierInPlace(ss: seq<Section>, op: Op)
    requires op.RenameTo? || op.AddItem? || op.DelItem? || (op.SetValue? && op.value.Some? && op.value.value != "")
    requires !Idle(ss, op) && Target(ss, op).s.Some? && !Own(ss, Target(ss, op))
    ensures Applied(ss, op).sections == Applied(ss, Again(ss, op)).sections
       <==> Keeps(ss, op) && (Idle(ss, Again(ss, op)) || Keeps(ss, Again(ss, op)))
  {
    Earlier(ss, op);
    OneSection(ss, op);
    OneSection(ss, Again(ss, op));
    OnlyBoth(ss, Applied(ss, op).sections, Applied(ss, Again(ss, op)).sections, Target(ss, op).s.value,
      Target(ss, Again(ss, op)).s.value);
    KeepsExactly(ss, op);
    KeepsAgain(ss, op);
  }

  lemma EarlierMeans(ss: seq<Section>, op: Op)
    requires op.RenameTo? || op.AddItem? || op.DelItem? || (op.SetValue? && op.value.Some? && op.value.value != "")
    requires !Idle(ss, op) && Target(ss, op).s.Some?
    ensures var i, j := Target(ss, op).s.value, FindSection(ss, Target(ss, op).section);
            j < |ss|
              && (EarlierAgrees(ss, op, i, j)
                 <==> Keeps(ss, op) && (Idle(ss, Again(ss, op)) || Keeps(ss, Again(ss, op))))
  {
    Earlier(ss, op);
  }

  lemma DeletesOther(ss: seq<Section>, p: Ptr, q: Ptr)
    requires Fits(ss, p) && Fits(ss, q) && p.s.Some? && q.s.Some? && p.s != q.s && p.option == q.option
    requires Deleting(ss, p).delta != []
    ensures Deleting(ss, q).sections == Deleting(ss, p).sections <==> p.option.None? && Level(ss, q.s.value, p.s.value)
  {
    DeletingShorter(ss, p);
    if p.option.None? {
      DropSameAny(ss, q.s.value, p.s.value);
    } else {
      assert Deleting(ss, q).sections[p.s.value] == ss[p.s.value];
    }
  }

  /** The record of a deletion, also by setting to the empty string. */
  lemma RemoveRecord(ss: seq<Section>, op: Op)
    requires op.Delete? || (op.SetValue? && op.value.Some? && op.value.value == "")
    requires !Idle(ss, op)
    ensures var p, out := Target(ss, op), Applied(ss, op);
            && out == Deleting(ss, p) && |out.delta| == 1
            && out.delta[0] == Delta(Remove, p.section, op.option, out.delta[0].value)
  {
  }

  lemma EarlierDelete(ss: seq<Section>, op: Op)
    requires op.Delete? || (op.SetValue? && op.value.Some? && op.value.value == "")
    requires !Idle(ss, op) && Sayable(ss, op) && !Own(ss, Target(ss, op))
    ensures var i, j := Target(ss, op).s.value, FindSection(ss, Target(ss, op).section);
            j < |ss| && |Applied(ss, op).delta| == 1
            && (ReplayedOne(ss, Applied(ss, op).delta[0]) == Applied(ss, op).sections <==> EarlierAgrees(ss, op, i, j))
  {
    Earlier(ss, op);
    SayableExactly(ss, op);
    RemoveRecord(ss, op);
    var p, d := Target(ss, op), Applied(ss, op).delta[0];
    DeletesOther(ss, p, Expanded(ss, Named(d.section), d.option, d.value));
  }

  lemma EarlierMove(ss: seq<Section>, op: Op)
    requires op.MoveTo? && !Idle(ss, op) && Sayable(ss, op)
    ensures var i, j := Target(ss, op).s.value, FindSection(ss, Target(ss, op).section);
            j < |ss| && |Applied(ss, op).delta| == 1
            && (ReplayedOne(ss, Applied(ss, op).delta[0]) == Applied(ss, op).sections <==> EarlierAgrees(ss, op, i, j))
  {
    Earlier(ss, op);
    SayableExactly(ss, op);
    DecimalReads(op.pos);
    MovedAlike(ss, FindSection(ss, Target(ss, op).section), Target(ss, op).s.value, op.pos);
  }

  // ---- one call, and runs of calls ----

  /** What the record of a call does, if it can be said. */
  lemma AgreesExactly(ss: seq<Section>, op: Op)
    requires !Idle(ss, op) && Sayable(ss, op)
    ensures |Applied(ss, op).delta| == 1
    ensures ReplayedOne(ss, Applied(ss, op).delta[0]) == Applied(ss, op).sections <==> Agrees(ss, op)
  {
    IdleExactly(ss, op);
    if op.AddSection? {
      AddReplays(ss, op.kind, op.name);
      assert forall c :: TypeChar(c) ==> TextChar(c);
    } else {
      SayableExactly(ss, op);
      if Own(ss, Target(ss, op)) {
        OpReplays(ss, op);
      } else if op.MoveTo? {
        EarlierMove(ss, op);
      } else if op.Delete? || (op.SetValue? && op.value.value == "") {
        EarlierDelete(ss, op);
      } else {
        if op.SetValue? {
          ReplayedSet(ss, op);
        } else {
          ReplayedAgain(ss, op);
        }
        EarlierInPlace(ss, op);
        EarlierMeans(ss, op);
      }
    }
  }

  /** On every package, replaying the records of one call gives what the call gave exactly if it is replayable. */
  lemma StepReplays(ss: seq<Section>, op: Op)
    ensures Replayed(ss, Applied(ss, op).delta) == Applied(ss, op).sections <==> Replayable(ss, op)
  {
    IdleExactly(ss, op);
    var out := Applied(ss, op);
    if out.delta != [] {
      var d := out.delta[0];
      assert out.delta == [d] && out.delta[1..] == [];
      assert Replayed(ss, out.delta) == ReplayedOne(ss, d);
      if Sayable(ss, op) {
        AgreesExactly(ss, op);
      } else {
        KeepsExactly(ss, op);
        UnsayableKeeps(ss, op);
      }
    }
  }

  /** A record that cannot be said adds no section. */
  lemma UnsayableKeeps(ss: seq<Section>, op: Op)
    requires !Idle(ss, op) && !Sayable(ss, op)
    ensures |Applied(ss, op).delta| == 1
    ensures op.AddSection? ==> ReplayedOne(ss, Applied(ss, op).delta[0]) != Applied(ss, op).sections
    ensures !op.AddSection? ==> ReplayedOne(ss, Applied(ss, op).delta[0]) == ss
  {
    if op.AddSection? {
      AddReplays(ss, op.kind, op.name);
    } else {
      SayableExactly(ss, op);
    }
  }

  predicate AllReplayable(ss: seq<Section>, ops: seq<Op>)
    decreases |ops|
  {
    ops == [] || (Replayable(ss, ops[0]) && AllReplayable(Applied(ss, ops[0]).sections, ops[1..]))
  }

  /** Replaying what has been recorded so far gives the package as it is. */
  predicate InStep(ss: seq<Section>, ops: seq<Op>) {
    var r := AppliedAll(ss, ops);
    Replayed(ss, r.1) == r.0
  }

  /** The same after a first call that is replayable. */
  lemma InStepRest(ss: seq<Section>, ops: seq<Op>, k: nat)
    requires 0 < k <= |ops| && Replayed(ss, Applied(ss, ops[0]).delta) == Applied(ss, ops[0]).sections
    ensures InStep(ss, ops[..k]) <==> InStep(Applied(ss, ops[0]).sections, ops[1..][..k - 1])
  {
    var one := Applied(ss, ops[0]);
    assert ops[..k][0] == ops[0] && ops[..k][1..] == ops[1..][..k - 1];
    ReplayedSum(ss, one.delta, AppliedAll(one.sections, ops[1..][..k - 1]).1);
  }

  lemma InStepFirst(ss: seq<Section>, ops: seq<Op>)
    requires ops != []
    ensures InStep(ss, ops[..1]) <==> Replayable(ss, ops[0])
  {
    var one := Applied(ss, ops[0]);
    var none: seq<Op> := [];
    assert ops[..1][0] == ops[0] && ops[..1][1..] == none;
    assert AppliedAll(one.sections, none) == (one.sections, []) && one.delta + [] == one.delta;
    StepReplays(ss, ops[0]);
  }

  /** On every package and for every run of calls: the records replay to the package after each call of the run exactly
      if each call is replayable. */
  lemma {:induction false} RunReplays(ss: seq<Section>, ops: seq<Op>)
    ensures (forall k :: 0 <= k <= |ops| ==> InStep(ss, ops[..k])) <==> AllReplayable(ss, ops)
    decreases |ops|
  {
    if ops == [] {
      assert ops[..0] == [];
    } else {
      InStepFirst(ss, ops);
      if Replayable(ss, ops[0]) {
        var rest, now := ops[1..], Applied(ss, ops[0]).sections;
        StepReplays(ss, ops[0]);
        RunReplays(now, rest);
        assert InStep(ss, ops[..0]);
        forall k | 0 < k <= |ops|
          ensures InStep(ss, ops[..k]) <==> InStep(now, rest[..k - 1])
        {
          InStepRest(ss, ops, k);
        }
        assert forall k :: 0 <= k <= |rest| ==> (InStep(now, rest[..k]) <==> InStep(ss, ops[..k + 1]));
      }
    }
  }

  // ---- calls that keep names apart ----

  lemma ProperReplayable(ss: seq<Section>, op: Op)
    requires Sound(ss) && Proper(ss, op)
    ensures Replayable(ss, op)
  {
    if !op.AddSection? && Target(ss, op).s.Some? {
      FindsItself(ss, Target(ss, op).s.value);
    }
  }

  /** For every run of calls with valid names and texts that keep sibling names apart, replaying all records on the
      starting package gives the final one. */
  lemma {:induction false} ProperRunReplays(ss: seq<Section>, ops: seq<Op>)
    requires Sound(ss) && AllProper(ss, ops)
    ensures AllReplayable(ss, ops) && InStep(ss, ops) && Sound(AppliedAll(ss, ops).0)
    decreases |ops|
  {
    if ops != [] {
      ProperKeeps(ss, ops[0]);
      ProperReplayable(ss, ops[0]);
      ProperRunReplays(Applied(ss, ops[0]).sections, ops[1..]);
    }
    RunReplays(ss, ops);
    assert ops[..|ops|] == ops;
  }

  lemma {:induction false} AppliedSum(ss: seq<Section>, a: seq<Op>, op: Op)
    ensures var r := AppliedAll(ss, a); var one := Applied(r.0, op);
            AppliedAll(ss, a + [op]) == (one.sections, r.1 + one.delta)
    decreases |a|
  {
    var none: seq<Op> := [];
    if a == [] {
      assert a + [op] == [op] && [op][1..] == none;
      assert AppliedAll(Applied(ss, op).sections, none) == (Applied(ss, op).sections, []);
      assert Applied(ss, op).delta + [] == Applied(ss, op).delta && [] + Applied(ss, op).delta == Applied(ss, op).delta;
    } else {
      var one := Applied(ss, a[0]);
      assert (a + [op])[1..] == a[1..] + [op] && (a + [op])[0] == a[0];
      AppliedSum(one.sections, a[1..], op);
      var r := AppliedAll(one.sections, a[1..]);
      Associates(one.delta, r.1, Applied(r.0, op).delta);
    }
  }

  lemma DeleteOnly(s: Section)
    requires ValidName(s.name)
    ensures Applied([s], Delete(Named(s.name), None, None)) == Outcome([], [Delta(Remove, s.name, None, None)], Done)
    ensures ReplayedOne([s], Delta(Remove, s.name, None, None)) == []
  {
    assert FindSection([s], s.name) == 0 && Drop([s], 0) == [];
  }

  /** Later calls may hide that replay has gone wrong in between: the calls of ClashBreaksReplay, and then one that
      deletes whatever section is left. */
  lemma ErrorsCancel(s: Section, t: Section)
    requires Sound([s, t]) && s != t.(name := s.name, anonymous := false)
    ensures var ops := [RenameTo(Named(t.name), None, Some(s.name)), Delete(Extended("[1]", None, 1), None, None)];
            !InStep([s, t], ops) && InStep([s, t], ops + [Delete(Named(s.name), None, None)])
  {
    var ops := [RenameTo(Named(t.name), None, Some(s.name)), Delete(Extended("[1]", None, 1), None, None)];
    var last, t' := Delete(Named(s.name), None, None), t.(name := s.name, anonymous := false);
    assert ValidName([s, t][0].name);
    ClashBreaksReplay(s, t);
    DeleteOnly(s);
    DeleteOnly(t');
    AppliedSum([s, t], ops, last);
    var d := Delta(Remove, s.name, None, None);
    ReplayedSum([s, t], AppliedAll([s, t], ops).1, [d]);
    assert [d][1..] == [] && Replayed([t'], [d]) == [];
  }
}
