/** Packages, sections and options of libuci and the values its mutators compute (list.c). */
module UciStore {
  import opened Common

  /** An option holds one string or a list of strings. */
  datatype Value = Text(text: string) | Items(items: seq<string>)
  datatype Opt = Opt(name: string, value: Value)
  datatype Section = Section(name: string, kind: string, anonymous: bool, options: seq<Opt>)

  datatype Command = Add | Change | Remove | Rename | Reorder | ListAdd | ListDel
  datatype Delta = Delta(cmd: Command, section: string, option: Maybe<string>, value: Maybe<string>)

  datatype Status = Done | NotFound | Invalid | BadIndex

  /** What a mutator does: the new sections and the records it logs. */
  datatype Outcome = Outcome(sections: seq<Section>, delta: seq<Delta>, status: Status)

  /** How a caller names a section: by name, or spelled with a leading @ as the index-th one of a type,
      counted from the end when negative. */
  datatype Ref = Named(name: string) | Extended(spelling: string, kind: Maybe<string>, index: int)
  {
    function Spelled(): string { if Named? then name else "@" + spelling }
  }

  /** struct uci_ptr after uci_expand_ptr. */
  datatype Ptr = Ptr(section: string, s: Maybe<nat>, option: Maybe<string>, o: Maybe<nat>, value: Maybe<string>)
  {
    predicate Complete() { s.Some? && (option.Some? ==> o.Some?) }
  }

  // ---- uci_validate_str, uci_validate_text ----

  predicate NameChar(c: char) { '0' <= c <= '9' || 'a' <= c <= 'z' || 'A' <= c <= 'Z' || c == '_' }
  predicate TypeChar(c: char) { '!' <= c <= '~' }
  predicate TextChar(c: char) { c == '\t' || c >= ' ' }

  predicate ValidName(s: string) { s != "" && forall c <- s :: NameChar(c) }
  predicate ValidType(s: string) { s != "" && forall c <- s :: TypeChar(c) }
  predicate ValidText(s: string) { forall c <- s :: TextChar(c) }

  // ---- numbers in records: sscanf and strtoul read what sprintf writes ----

  predicate Digit(c: char) { '0' <= c <= '9' }

  function Digits(n: nat): string {
    (if n < 10 then [] else Digits(n / 10)) + [('0' as int + n % 10) as char]
  }

  function Decimal(n: int): string {
    if n < 0 then ['-'] + Digits(-n) else Digits(n)
  }

  /** The number the digits at the start of s make after the number n, as far as they go. */
  function Accumulate(n: nat, s: string): nat
    decreases |s|
  {
    if s == "" || !Digit(s[0]) then n else Accumulate(10 * n + (s[0] as int - '0' as int), s[1..])
  }

  predicate Space(c: char) { c == ' ' || '\t' <= c <= '\r' }

  /** What %d reads at the start of a string, if there is a number. */
  function Scan(s: string): Maybe<int> {
    if s == "" then None
    else if Space(s[0]) then Scan(s[1..])
    else
      var t := if s[0] == '-' || s[0] == '+' then s[1..] else s;
      var n: int := Accumulate(0, t);
      if t == "" || !Digit(t[0]) then None else Some(if s[0] == '-' then -n else n)
  }

  // ---- lookup ----

  function FindSection(ss: seq<Section>, name: string): (i: nat)
    ensures i <= |ss| && (i < |ss| ==> ss[i].name == name)
    ensures forall j :: 0 <= j < i ==> ss[j].name != name
  {
    if ss == [] || ss[0].name == name then 0 else 1 + FindSection(ss[1..], name)
  }

  function FindOption(os: seq<Opt>, name: string): (i: nat)
    ensures i <= |os| && (i < |os| ==> os[i].name == name)
    ensures forall j :: 0 <= j < i ==> os[j].name != name
  {
    if os == [] || os[0].name == name then 0 else 1 + FindOption(os[1..], name)
  }

  function Found(i: nat, n: nat): Maybe<nat> { if i < n then Some(i) else None }

  predicate OfKind(s: Section, kind: Maybe<string>) { kind.None? || kind.value == s.kind }

  /** The positions of the sections of one type, in order. */
  function Matching(ss: seq<Section>, kind: Maybe<string>): (r: seq<nat>)
    ensures forall i :: 0 <= i < |r| ==> r[i] < |ss| && OfKind(ss[r[i]], kind)
  {
    if ss == [] then []
    else
      var n := |ss| - 1;
      Matching(ss[..n], kind) + if OfKind(ss[n], kind) then [n] else []
  }

  /** The section a reference stands for. */
  function Resolved(ss: seq<Section>, ref: Ref): Maybe<nat> {
    match ref
    case Named(name) => Found(FindSection(ss, name), |ss|)
    case Extended(_, kind, index) =>
      var r := Matching(ss, kind);
      var i := if index < 0 then index + |r| else index;
      if 0 <= i < |r| then Some(r[i]) else None
  }

  /** uci_lookup_ptr and uci_expand_ptr: a section that is found lends the pointer its name. */
  function Expanded(ss: seq<Section>, ref: Ref, option: Maybe<string>, value: Maybe<string>): (p: Ptr)
    ensures Fits(ss, p)
  {
    var s := Resolved(ss, ref);
    if s.None? then Ptr(ref.Spelled(), None, option, None, value)
    else
      var os := ss[s.value].options;
      var o := if option.None? then None else Found(FindOption(os, option.value), |os|);
      Ptr(ss[s.value].name, s, option, o, value)
  }

  /** The pointer's section and option are in the package. */
  predicate Fits(ss: seq<Section>, p: Ptr) {
    && (p.s.Some? ==> p.s.value < |ss| && ss[p.s.value].name == p.section)
    && (p.o.Some? ==> p.s.Some? && p.option.Some? && p.o.value < |ss[p.s.value].options|
                      && ss[p.s.value].options[p.o.value].name == p.option.value)
  }

  // ---- the mutators ----

  function Drop<T>(s: seq<T>, i: nat): seq<T>
    requires i < |s|
  {
    s[..i] + s[i + 1..]
  }

  function WithOptions(ss: seq<Section>, i: nat, os: seq<Opt>): seq<Section>
    requires i < |ss|
  {
    ss[i := ss[i].(options := os)]
  }

  /** The option in place of the one the pointer found, at the end; a new one if there is none. */
  function Replaced(ss: seq<Section>, p: Ptr, v: Value): seq<Section>
    requires Fits(ss, p) && p.s.Some? && p.option.Some?
  {
    var os := ss[p.s.value].options;
    WithOptions(ss, p.s.value, (if p.o.Some? then Drop(os, p.o.value) else os) + [Opt(p.option.value, v)])
  }

  /** The option the pointer found holding another value, where it was. */
  function Revalued(ss: seq<Section>, p: Ptr, v: Value): seq<Section>
    requires Fits(ss, p) && p.o.Some?
  {
    var os := ss[p.s.value].options;
    WithOptions(ss, p.s.value, os[p.o.value := os[p.o.value].(value := v)])
  }

  function Current(ss: seq<Section>, p: Ptr): Value
    requires Fits(ss, p) && p.o.Some?
  {
    ss[p.s.value].options[p.o.value].value
  }

  function Recorded(cmd: Command, p: Ptr, value: Maybe<string>): seq<Delta> {
    [Delta(cmd, p.section, p.option, value)]
  }

  /** uci_delete */
  function Deleting(ss: seq<Section>, p: Ptr): Outcome
    requires Fits(ss, p)
  {
    if !p.Complete() then Outcome(ss, [], NotFound)
    else if p.value.Some? && p.value.value != "" && p.o.Some? && Current(ss, p).Items? then
      var items, index := Current(ss, p).items, Scan(p.value.value);
      if index.None? then Outcome(ss, [], BadIndex)
      else if 0 <= index.value < |items| then
        Outcome(Revalued(ss, p, Items(Drop(items, index.value))), Recorded(Remove, p, p.value), Done)
      else Outcome(ss, [], Done)
    else
      var os := ss[p.s.value].options;
      Outcome(if p.o.Some? then WithOptions(ss, p.s.value, Drop(os, p.o.value)) else Drop(ss, p.s.value),
              Recorded(Remove, p, None), Done)
  }

  /** uci_set */
  function Setting(ss: seq<Section>, p: Ptr): Outcome
    requires Fits(ss, p)
  {
    if p.value.None? || (p.s.None? && p.option.Some?) then Outcome(ss, [], Invalid)
    else
      var v := p.value.value;
      if p.option.None? && v != "" && !ValidType(v) then Outcome(ss, [], Invalid)
      else if v == "" then (if p.Complete() then Deleting(ss, p) else Outcome(ss, [], Done))
      else if p.option.Some? then
        if p.o.Some? && Current(ss, p) == Text(v) then Outcome(ss, [], Done)
        else Outcome(Replaced(ss, p, Text(v)), Recorded(Change, p, p.value), Done)
      else if p.s.None? then
        Outcome(ss + [Section(p.section, v, p.section == "", [])], Recorded(Change, p, p.value), Done)
      else
        Outcome(ss[p.s.value := ss[p.s.value].(kind := v)], Recorded(Change, p, p.value), Done)
  }

  /** uci_add_list */
  function ListAdding(ss: seq<Section>, p: Ptr): Outcome
    requires Fits(ss, p)
  {
    if p.s.None? || p.option.None? || p.value.None? then Outcome(ss, [], Invalid)
    else
      var v := p.value.value;
      var now :=
        if p.o.None? then Replaced(ss, p, Items([v]))
        else match Current(ss, p)
          case Text(t) => Replaced(ss, p, Items([t, v]))
          case Items(items) => Revalued(ss, p, Items(items + [v]));
      Outcome(now, Recorded(ListAdd, p, p.value), Done)
  }

  function Filtered(items: seq<string>, v: string): seq<string> {
    if items == [] then []
    else
      var n := |items| - 1;
      Filtered(items[..n], v) + if items[n] == v then [] else [items[n]]
  }

  /** uci_del_list */
  function ListDeleting(ss: seq<Section>, p: Ptr): Outcome
    requires Fits(ss, p)
  {
    if p.s.None? || p.value.None? then Outcome(ss, [], Invalid)
    else if p.o.None? || !Current(ss, p).Items? then Outcome(ss, [], Done)
    else
      Outcome(Revalued(ss, p, Items(Filtered(Current(ss, p).items, p.value.value))), Recorded(ListDel, p, p.value),
        Done)
  }

  /** uci_rename */
  function Renaming(ss: seq<Section>, p: Ptr): Outcome
    requires Fits(ss, p)
  {
    if !p.Complete() then Outcome(ss, [], NotFound)
    else if p.value.None? then Outcome(ss, [], Invalid)
    else
      var s, v := ss[p.s.value], p.value.value;
      var now :=
        if p.o.Some? then s.(options := s.options[p.o.value := s.options[p.o.value].(name := v)])
        else s.(name := v, anonymous := false);
      Outcome(ss[p.s.value := now], Recorded(Rename, p, p.value), Done)
  }

  /** Where uci_list_set_pos puts an element of a list of n: no further than its end, and not before its start. */
  function Place(pos: int, n: nat): nat { if pos < 0 then 0 else if pos < n then pos else n }

  function Moved<T>(s: seq<T>, i: nat, pos: int): seq<T>
    requires i < |s|
  {
    var rest := Drop(s, i);
    var k := Place(pos, |rest|);
    rest[..k] + [s[i]] + rest[k..]
  }

  /** uci_reorder_section */
  function Reordering(ss: seq<Section>, i: nat, pos: int): Outcome
    requires i < |ss|
  {
    Outcome(Moved(ss, i, pos), [Delta(Reorder, ss[i].name, None, Some(Decimal(pos)))], Done)
  }

  /** uci_add_section, where `name` is the generated name. */
  function Adding(ss: seq<Section>, kind: string, name: string): Outcome {
    Outcome(ss + [Section(name, kind, true, [])], [Delta(Add, name, None, Some(kind))], Done)
  }
}
