/** Importing an exported package gives it back. */
module UciRoundTrip {
  import opened Common
  import opened UciStore
  import opened UciReplay
  import opened UciWord
  import opened UciText
  import opened UciLines
  import opened UciBreaks

  // ---- what the lines do ----

  /** The import is adding to the section at the end. */
  function Open(pre: seq<Section>, s: Section): Import { Import(pre + [s], Some(|pre|), true) }

  /** What lines do that are not too long. */
  function ImportedLines(m: Import, lines: seq<string>, strict: bool, generated: nat -> string): (r: Import)
    requires m.Valid()
    decreases |lines|
  {
    if lines == [] || !m.ok then m
    else ImportedLines(Told(m, Trimmed(lines[0]), strict, generated), lines[1..], strict, generated)
  }

  /** Reading these lines turns m into m'. */
  ghost predicate Leads(m: Import, lines: seq<string>, m': Import, strict: bool, generated: nat -> string)
    requires m.Valid() && m'.Valid()
  {
    forall more: seq<string> ::
      ImportedLines(m, lines + more, strict, generated) == ImportedLines(m', more, strict, generated)
  }

  lemma LeadsOn(m: Import, a: seq<string>, m': Import, b: seq<string>, m'': Import, strict: bool,
      generated: nat -> string)
    requires m.Valid() && m'.Valid() && m''.Valid()
    requires Leads(m, a, m', strict, generated) && Leads(m', b, m'', strict, generated)
    ensures Leads(m, a + b, m'', strict, generated)
  {
    forall more: seq<string>
      ensures ImportedLines(m, a + b + more, strict, generated) == ImportedLines(m'', more, strict, generated)
    {
      assert a + b + more == a + (b + more);
    }
  }

  lemma LeadsNowhere(m: Import, strict: bool, generated: nat -> string)
    requires m.Valid()
    ensures Leads(m, [], m, strict, generated)
  {
    forall more: seq<string>
      ensures ImportedLines(m, [] + more, strict, generated) == ImportedLines(m, more, strict, generated)
    {
      assert [] + more == more;
    }
  }

  lemma {:induction false} LineLeads(m: Import, line: string, c: Statement, strict: bool, generated: nat -> string)
    requires m.Valid() && m.ok && ReadLine(Trimmed(line), strict) == Reading([c], true) && Executed(m, c, generated).ok
    ensures Leads(m, [line], Executed(m, c, generated), strict, generated)
  {
    forall more: seq<string>
      ensures ImportedLines(m, [line] + more, strict, generated)
              == ImportedLines(Executed(m, c, generated), more, strict, generated)
    {
      var lines := [line] + more;
      assert lines[0] == line && lines[1..] == more && [c][1..] == [];
      assert ExecutedAll(m, [c], generated) == ExecutedAll(Executed(m, c, generated), [], generated);
    }
  }

  lemma BlankLeads(m: Import, strict: bool, generated: nat -> string)
    requires m.Valid()
    ensures Leads(m, [""], m, strict, generated)
  {
    forall more: seq<string>
      ensures ImportedLines(m, [""] + more, strict, generated) == ImportedLines(m, more, strict, generated)
    {
      var lines := [""] + more;
      assert lines[0] == "" && lines[1..] == more;
    }
  }

  lemma OpenOptions(pre: seq<Section>, s: Section, os: seq<Opt>)
    ensures WithOptions(pre + [s], |pre|, os) == pre + [s.(options := os)]
  {
  }

  lemma {:induction false} SetsOption(pre: seq<Section>, s: Section, name: string, v: string, generated: nat -> string)
    requires FindOption(s.options, name) == |s.options|
    ensures Executed(Open(pre, s), Option(name, v), generated)
         == Open(pre, s.(options := s.options + if v == "" then [] else [Opt(name, Text(v))]))
  {
    assert (pre + [s])[|pre|] == s && s.options + [] == s.options;
    OpenOptions(pre, s, s.options + [Opt(name, Text(v))]);
  }

  lemma {:induction false} StartsList(pre: seq<Section>, s: Section, name: string, v: string, generated: nat -> string)
    requires FindOption(s.options, name) == |s.options|
    ensures Executed(Open(pre, s), List(name, v), generated)
            == Open(pre, s.(options := s.options + [Opt(name, Items([v]))]))
  {
    assert (pre + [s])[|pre|] == s;
    OpenOptions(pre, s, s.options + [Opt(name, Items([v]))]);
  }

  lemma {:induction false} ExtendsList(pre: seq<Section>, s: Section, os: seq<Opt>, name: string, items: seq<string>,
      v: string, generated: nat -> string)
    requires FindOption(os, name) == |os| && s.options == os + [Opt(name, Items(items))]
    ensures Executed(Open(pre, s), List(name, v), generated)
            == Open(pre, s.(options := os + [Opt(name, Items(items + [v]))]))
  {
    assert (pre + [s])[|pre|] == s;
    assert s.options[|os|] == Opt(name, Items(items));
    assert FindOption(s.options, name) == |os|;
    assert s.options[|os| := Opt(name, Items(items + [v]))] == os + [Opt(name, Items(items + [v]))];
    OpenOptions(pre, s, os + [Opt(name, Items(items + [v]))]);
  }

  // ---- whole packages ----

  /** Empty strings and empty lists do not survive. */
  predicate Hollow(o: Opt) { o.value == Text("") || o.value == Items([]) }

  function Solid(os: seq<Opt>): seq<Opt> {
    if os == [] then [] else (if Hollow(os[0]) then [] else [os[0]]) + Solid(os[1..])
  }

  lemma {:induction false} SolidShrinks(os: seq<Opt>)
    ensures |Solid(os)| <= |os| && (|Solid(os)| == |os| ==> forall o <- os :: !Hollow(o))
  {
    if os != [] {
      SolidShrinks(os[1..]);
    }
  }

  /** Options come back unchanged exactly when none is an empty string or an empty list. */
  lemma {:induction false} SolidExact(os: seq<Opt>)
    ensures Solid(os) == os <==> forall o <- os :: !Hollow(o)
  {
    SolidShrinks(os);
    if os != [] && (forall o <- os :: !Hollow(o)) {
      assert forall o <- os[1..] :: o in os;
      SolidExact(os[1..]);
      assert os[0] in os && [os[0]] + os[1..] == os;
    }
  }

  function ReloadedOne(s: Section, name: string): Section {
    s.(name := if s.anonymous then name else s.name, options := Solid(s.options))
  }

  /** The sections as they come back: with generated names for the anonymous ones, the first being the k-th. */
  function Reloaded(ss: seq<Section>, generated: nat -> string, k: nat): seq<Section>
    decreases |ss|
  {
    if ss == [] then [] else [ReloadedOne(ss[0], generated(k))] + Reloaded(ss[1..], generated, k + 1)
  }

  predicate ExportableSection(s: Section) {
    Plain(s.kind) && (!s.anonymous ==> ValidName(s.name)) && forall o <- s.options :: ValidName(o.name)
  }

  predicate Exportable(ss: seq<Section>) { forall s <- ss :: ExportableSection(s) }

  lemma {:induction false} ItemsImported(pre: seq<Section>, s: Section, os: seq<Opt>, name: string, items: seq<string>,
      next: seq<string>,
                                         strict: bool, generated: nat -> string)
    requires ValidName(name) && FindOption(os, name) == |os| && s.options == os + [Opt(name, Items(items))]
    ensures Leads(Open(pre, s), ListLines(name, next), Open(pre, s.(options := os + [Opt(name, Items(items + next))])),
            strict, generated)
    decreases |next|
  {
    if next == [] {
      assert items + next == items;
      LeadsNowhere(Open(pre, s), strict, generated);
    } else {
      var more := items + [next[0]];
      var t := s.(options := os + [Opt(name, Items(more))]);
      ListLineReads(name, next[0], strict);
      ExtendsList(pre, s, os, name, items, next[0], generated);
      LineLeads(Open(pre, s), ListLine(name, next[0]), List(name, next[0]), strict, generated);
      ItemsImported(pre, t, os, name, more, next[1..], strict, generated);
      assert more + next[1..] == items + next;
      LeadsOn(Open(pre, s), [ListLine(name, next[0])], Open(pre, t), ListLines(name, next[1..]),
              Open(pre, s.(options := os + [Opt(name, Items(items + next))])), strict, generated);
    }
  }

  /** The section once an option has been read. */
  function WithOption(s: Section, o: Opt): Section {
    s.(options := s.options + if Hollow(o) then [] else [o])
  }

  lemma {:induction false} TextImported(pre: seq<Section>, s: Section, o: Opt, strict: bool, generated: nat -> string)
    requires ValidName(o.name) && o.value.Text? && (!Hollow(o) ==> FindOption(s.options, o.name) == |s.options|)
    ensures Leads(Open(pre, s), OptLines(o), Open(pre, WithOption(s, o)), strict, generated)
  {
    var t := o.value.text;
    assert s.options + [] == s.options;
    OptionLineReads(o.name, t, strict);
    LineLeads(Open(pre, s), OptionLine(o.name, t), Option(o.name, t), strict, generated);
    if t != "" {
      SetsOption(pre, s, o.name, t, generated);
    }
  }

  lemma {:induction false} OptImported(pre: seq<Section>, s: Section, o: Opt, strict: bool, generated: nat -> string)
    requires ValidName(o.name) && (!Hollow(o) ==> FindOption(s.options, o.name) == |s.options|)
    ensures Leads(Open(pre, s), OptLines(o), Open(pre, WithOption(s, o)), strict, generated)
  {
    if o.value.Text? {
      TextImported(pre, s, o, strict, generated);
    } else if o.value.items == [] {
      assert s.options + [] == s.options;
      LeadsNowhere(Open(pre, s), strict, generated);
    } else {
      var items := o.value.items;
      var t := s.(options := s.options + [Opt(o.name, Items([items[0]]))]);
      ListLineReads(o.name, items[0], strict);
      StartsList(pre, s, o.name, items[0], generated);
      LineLeads(Open(pre, s), ListLine(o.name, items[0]), List(o.name, items[0]), strict, generated);
      ItemsImported(pre, t, s.options, o.name, [items[0]], items[1..], strict, generated);
      assert [items[0]] + items[1..] == items;
      LeadsOn(Open(pre, s), [ListLine(o.name, items[0])], Open(pre, t), ListLines(o.name, items[1..]),
        Open(pre, WithOption(s, o)), strict, generated);
    }
  }

  lemma Shift<T>(a: seq<T>, x: T, b: seq<T>)
    ensures a + ([x] + b) == a + [x] + b
    ensures a + ([] + b) == a + [] + b
  {
  }

  lemma NewBehind(a: seq<Opt>, o: Opt, b: seq<Opt>)
    requires SoundOptions(a + [o] + b)
    ensures FindOption(a, o.name) == |a|
  {
    var all := a + [o] + b;
    assert all[|a|] == o && forall j :: 0 <= j < |a| ==> all[j] == a[j];
  }

  /** Options that fit behind others: the first one is new there, and the rest fit behind it. */
  lemma FitsBehind(s: Section, os: seq<Opt>)
    requires os != [] && SoundOptions(s.options + Solid(os))
    ensures !Hollow(os[0]) ==> FindOption(s.options, os[0].name) == |s.options|
    ensures WithOption(s, os[0]).options + Solid(os[1..]) == s.options + Solid(os)
  {
    Shift(s.options, os[0], Solid(os[1..]));
    if !Hollow(os[0]) {
      NewBehind(s.options, os[0], Solid(os[1..]));
    }
  }

  lemma {:induction false} OptsImported(pre: seq<Section>, s: Section, os: seq<Opt>, strict: bool,
      generated: nat -> string)
    requires (forall o <- os :: ValidName(o.name)) && SoundOptions(s.options + Solid(os))
    ensures Leads(Open(pre, s), OptsLines(os), Open(pre, s.(options := s.options + Solid(os))), strict, generated)
    decreases |os|
  {
    if os == [] {
      assert s.options + [] == s.options;
      LeadsNowhere(Open(pre, s), strict, generated);
    } else {
      FitsBehind(s, os);
      OptImported(pre, s, os[0], strict, generated);
      assert forall q <- os[1..] :: q in os;
      OptsImported(pre, WithOption(s, os[0]), os[1..], strict, generated);
      LeadsOn(Open(pre, s), OptLines(os[0]), Open(pre, WithOption(s, os[0])), OptsLines(os[1..]),
              Open(pre, s.(options := s.options + Solid(os))), strict, generated);
    }
  }

  lemma {:induction false} OpensSection(m: Import, s: Section, generated: nat -> string)
    requires m.Valid() && m.ok && Plain(s.kind)
    requires s.anonymous || (ValidName(s.name) && FindSection(m.sections, s.name) == |m.sections|)
    ensures Executed(m, Config(s.kind, if s.anonymous then "" else s.name), generated)
         == Open(m.sections, s.(name := if s.anonymous then generated(|m.sections|) else s.name, options := []))
  {
  }

  lemma {:induction false} HeadImported(m: Import, s: Section, strict: bool, generated: nat -> string)
    requires m.Valid() && m.ok && ExportableSection(s)
    requires s.anonymous || FindSection(m.sections, s.name) == |m.sections|
    ensures Leads(m, ["", ConfigLine(s)],
                  Open(m.sections, ReloadedOne(s, generated(|m.sections|)).(options := [])), strict, generated)
  {
    BlankLeads(m, strict, generated);
    ConfigLineReads(s, strict);
    OpensSection(m, s, generated);
    LineLeads(m, ConfigLine(s), Config(s.kind, if s.anonymous then "" else s.name), strict, generated);
    LeadsOn(m, [""], m, [ConfigLine(s)], Open(m.sections, ReloadedOne(s, generated(|m.sections|)).(options := [])),
      strict, generated);
    assert [""] + [ConfigLine(s)] == ["", ConfigLine(s)];
  }

  lemma LastNew(ss: seq<Section>, s: Section)
    requires Sound(ss + [s])
    ensures FindSection(ss, s.name) == |ss| && SoundOptions(s.options)
  {
    var all := ss + [s];
    assert all[|ss|] == s && forall j :: 0 <= j < |ss| ==> all[j] == ss[j];
  }

  lemma {:induction false} SectionImported(m: Import, s: Section, strict: bool, generated: nat -> string)
    requires m.Valid() && m.ok && ExportableSection(s)
    requires Sound(m.sections + [ReloadedOne(s, generated(|m.sections|))])
    ensures Leads(m, SectionLines(s), Open(m.sections, ReloadedOne(s, generated(|m.sections|))), strict, generated)
  {
    var pre, now := m.sections, ReloadedOne(s, generated(|m.sections|));
    LastNew(pre, now);
    HeadImported(m, s, strict, generated);
    assert [] + Solid(s.options) == Solid(s.options);
    OptsImported(pre, now.(options := []), s.options, strict, generated);
    LeadsOn(m, ["", ConfigLine(s)], Open(pre, now.(options := [])), OptsLines(s.options), Open(pre, now), strict,
      generated);
  }

  lemma SoundPrefix(a: seq<Section>, b: seq<Section>)
    requires Sound(a + b)
    ensures Sound(a)
  {
    assert forall j :: 0 <= j < |a| ==> (a + b)[j] == a[j];
  }

  /** Importing the printed lines of a package adds its sections in order. */
  lemma {:induction false} PackageImported(m: Import, ss: seq<Section>, strict: bool, generated: nat -> string)
    requires m.Valid() && m.ok && Exportable(ss) && Sound(m.sections + Reloaded(ss, generated, |m.sections|))
    ensures var r := ImportedLines(m, PackageLines(ss), strict, generated);
            r.ok && r.sections == m.sections + Reloaded(ss, generated, |m.sections|)
    decreases |ss|
  {
    var pre := m.sections;
    if ss == [] {
      BlankLeads(m, strict, generated);
      assert [""] + [] == [""] && pre + [] == pre;
      assert ImportedLines(m, [""] + [], strict, generated) == ImportedLines(m, [], strict, generated);
    } else {
      var now, rest := ReloadedOne(ss[0], generated(|pre|)), Reloaded(ss[1..], generated, |pre| + 1);
      Shift(pre, now, rest);
      SoundPrefix(pre + [now], rest);
      SectionImported(m, ss[0], strict, generated);
      assert ImportedLines(m, SectionLines(ss[0]) + PackageLines(ss[1..]), strict, generated)
          == ImportedLines(Open(pre, now), PackageLines(ss[1..]), strict, generated);
      PackageImported(Open(pre, now), ss[1..], strict, generated);
    }
  }

  predicate Short(lines: seq<string>) { forall l <- lines :: |l| <= LONGEST }

  lemma ShortRest(lines: seq<string>)
    requires lines != []
    ensures Short(lines) <==> |lines[0]| <= LONGEST && Short(lines[1..])
  {
    assert lines == [lines[0]] + lines[1..];
  }

  /** Reading a text line by line: a line that is too long ends it. */
  lemma {:induction false} JoinedImported(m: Import, lines: seq<string>, size: nat, strict: bool,
      generated: nat -> string)
    requires m.Valid() && BufferSize(size) && forall l <- lines :: '\n' !in l
    ensures var r := ImportedFrom(m, Joined(lines), size, strict, generated);
            if Short(lines) then r == ImportedLines(m, lines, strict, generated) else !r.ok
    decreases |lines|
  {
    if lines != [] {
      var l, rest := lines[0], lines[1..];
      assert l in lines && forall q <- rest :: q in lines;
      LineFetched(l, Joined(rest), size);
      if |l| <= LONGEST && m.ok {
        ShortRest(lines);
        JoinedImported(Told(m, Trimmed(l), strict, generated), rest, Grown(size, |l| + 1), strict, generated);
      }
    }
  }

  lemma QuotedIs(indent: string, word: string, n: string, e: string)
    ensures indent + word + " " + n + " " + ("'" + e + "'") == indent + (word + (" " + (n + (" " + "'")))) + (e + "'")
  {
  }

  lemma OptionIs(n: string, v: string)
    requires ValidName(n)
    ensures OptionLine(n, v) == Start("option", n) + (Escape(v) + "'")
    ensures ListLine(n, v) == Start("list", n) + (Escape(v) + "'")
  {
    NamePlain(n);
    NameEscapes(n);
    QuotedIs("\t", "option", n, Escape(v));
    QuotedIs("\t", "list", n, Escape(v));
    assert "\toption " == "\t" + "option" + " " && "\tlist " == "\t" + "list" + " ";
  }

  /** A line has no line end in it, or it breaks off inside the quotes. */
  ghost predicate Tidy(l: string, strict: bool) { OneLine(l) || Broken(l, strict) }

  ghost predicate AllTidy(lines: seq<string>, strict: bool) { forall l <- lines :: Tidy(l, strict) }

  predicate Whole(lines: seq<string>) { forall l <- lines :: OneLine(l) }

  lemma ValueTidy(word: string, n: string, v: string, strict: bool)
    requires (word == "option" || word == "list") && ValidName(n)
    ensures var l := Start(word, n) + (Escape(v) + "'"); Tidy(l, strict) && (OneLine(l) <==> OneLine(v))
  {
    var l := Start(word, n) + (Escape(v) + "'");
    if OneLine(v) {
      StartOneLine(word, n);
      EscapeOneLine(v);
    } else {
      ValueBreaks(word, n, v, strict);
      var bad, more :| Breaks(l, bad, more, strict);
      assert l[|bad|] == '\n';
    }
  }

  lemma EachFirst(items: seq<string>)
    requires items != []
    ensures (forall v <- items :: OneLine(v)) <==> OneLine(items[0]) && forall v <- items[1..] :: OneLine(v)
  {
    assert items == [items[0]] + items[1..];
  }

  lemma {:induction false} ListLinesTidy(name: string, items: seq<string>, strict: bool)
    requires ValidName(name)
    ensures AllTidy(ListLines(name, items), strict)
    ensures Whole(ListLines(name, items)) <==> forall v <- items :: OneLine(v)
  {
    if items != [] {
      OptionIs(name, items[0]);
      ValueTidy("list", name, items[0], strict);
      ListLinesTidy(name, items[1..], strict);
      FirstOf([ListLine(name, items[0])], ListLines(name, items[1..]), strict);
      EachFirst(items);
    }
  }

  lemma FirstOf(a: seq<string>, b: seq<string>, strict: bool)
    ensures AllTidy(a, strict) && AllTidy(b, strict) ==> AllTidy(a + b, strict)
    ensures Whole(a + b) <==> Whole(a) && Whole(b)
  {
    assert forall l :: l in a + b <==> l in a || l in b;
  }

  lemma OptTidy(o: Opt, strict: bool)
    requires ValidName(o.name)
    ensures AllTidy(OptLines(o), strict) && (Whole(OptLines(o)) <==> Lineal([o]))
  {
    assert o in [o];
    match o.value {
      case Text(t) =>
        OptionIs(o.name, t);
        ValueTidy("option", o.name, t, strict);
      case Items(items) => ListLinesTidy(o.name, items, strict);
    }
  }

  lemma LinealFirst(os: seq<Opt>)
    requires os != []
    ensures Lineal(os) <==> Lineal([os[0]]) && Lineal(os[1..])
  {
    assert os == [os[0]] + os[1..];
  }

  lemma {:induction false} OptsLinesTidy(os: seq<Opt>, strict: bool)
    requires forall o <- os :: ValidName(o.name)
    ensures AllTidy(OptsLines(os), strict) && (Whole(OptsLines(os)) <==> Lineal(os))
  {
    if os != [] {
      OptTidy(os[0], strict);
      OptsLinesTidy(os[1..], strict);
      FirstOf(OptLines(os[0]), OptsLines(os[1..]), strict);
      LinealFirst(os);
    }
  }

  lemma HeadTidy(s: Section, strict: bool)
    requires ExportableSection(s)
    ensures AllTidy(["", ConfigLine(s)], strict) && Whole(["", ConfigLine(s)])
  {
    assert forall c <- s.kind :: PlainChar(c);
    EscapeOneLine(s.kind);
    if !s.anonymous {
      EscapeOneLine(s.name);
    }
  }

  lemma OneLineFirst(ss: seq<Section>)
    requires ss != []
    ensures OnOneLine(ss) <==> Lineal(ss[0].options) && OnOneLine(ss[1..])
  {
    assert ss == [ss[0]] + ss[1..];
  }

  lemma {:induction false} LinesTidy(ss: seq<Section>, strict: bool)
    requires Exportable(ss)
    ensures AllTidy(PackageLines(ss), strict) && (Whole(PackageLines(ss)) <==> OnOneLine(ss))
  {
    if ss != [] {
      var s := ss[0];
      assert s in ss && forall q <- ss[1..] :: q in ss;
      HeadTidy(s, strict);
      OptsLinesTidy(s.options, strict);
      FirstOf(["", ConfigLine(s)], OptsLines(s.options), strict);
      LinesTidy(ss[1..], strict);
      FirstOf(SectionLines(s), PackageLines(ss[1..]), strict);
      OneLineFirst(ss);
    }
  }

  /** In strict mode a line that breaks off ends the import. */
  lemma BreakFails(m: Import, bad: string, more: string, size: nat, generated: nat -> string)
    requires m.Valid() && BufferSize(size) && OneLine(bad) && !ReadLine(Trimmed(bad), true).ok
    ensures !ImportedFrom(m, bad + "\n" + more, size, true, generated).ok
  {
    LineFetched(bad, more, size);
    if |bad| <= LONGEST && m.ok {
      assert !Told(m, Trimmed(bad), true, generated).ok;
    }
  }

  lemma {:induction false} BrokenFails(m: Import, lines: seq<string>, size: nat, generated: nat -> string)
    requires m.Valid() && BufferSize(size) && AllTidy(lines, true) && !Whole(lines)
    ensures !ImportedFrom(m, Joined(lines), size, true, generated).ok
    decreases |lines|
  {
    var l, rest := lines[0], lines[1..];
    TidyRest(lines, true);
    if OneLine(l) {
      LineFetched(l, Joined(rest), size);
      if |l| <= LONGEST && m.ok {
        BrokenFails(Told(m, Trimmed(l), true, generated), rest, Grown(size, |l| + 1), generated);
      }
    } else {
      BrokenFirst(m, l, Joined(rest), size, generated);
    }
  }

  lemma BrokenFirst(m: Import, l: string, text: string, size: nat, generated: nat -> string)
    requires m.Valid() && BufferSize(size) && Broken(l, true)
    ensures !ImportedFrom(m, l + "\n" + text, size, true, generated).ok
  {
    var bad, more :| Breaks(l, bad, more, true);
    assert bad + "\n" + more + "\n" + text == bad + "\n" + (more + "\n" + text);
    BreakFails(m, bad, more + "\n" + text, size, generated);
  }

  lemma TidyRest(lines: seq<string>, strict: bool)
    requires lines != [] && AllTidy(lines, strict)
    ensures Tidy(lines[0], strict) && AllTidy(lines[1..], strict)
    ensures Whole(lines) <==> OneLine(lines[0]) && Whole(lines[1..])
  {
    assert lines[0] in lines && lines == [lines[0]] + lines[1..];
  }

  /** The lines of an export. */
  function Printed(ss: seq<Section>, header: Maybe<string>, names: bool): seq<string> {
    HeaderLines(header) + PackageLines(Shown(ss, names))
  }

  /** Packages with plain types and valid and distinct names, also those that are generated. */
  predicate Presentable(ss: seq<Section>, header: Maybe<string>, names: bool, generated: nat -> string) {
    && (header.Some? ==> ValidName(header.value)) && Exportable(Shown(ss, names))
    && Sound(Reloaded(Shown(ss, names), generated, 0))
  }

  lemma HeaderReads(name: string, strict: bool)
    requires ValidName(name)
    ensures ReadLine(Trimmed("package " + Escape(name)), strict) == Reading([Package], true)
  {
    NamePlain(name);
    NameEscapes(name);
    NoReturn("package ", name);
    ReadsPackage(name, strict);
    assert "package " == "" + "package" + " ";
    Regroup4("", "package", " ", name);
  }

  lemma HeaderImported(m: Import, header: Maybe<string>, strict: bool, generated: nat -> string)
    requires m.Valid() && m.ok && (header.Some? ==> ValidName(header.value))
    ensures Leads(m, HeaderLines(header), m, strict, generated)
  {
    if header.None? {
      LeadsNowhere(m, strict, generated);
    } else {
      HeaderReads(header.value, strict);
      LineLeads(m, "package " + Escape(header.value), Package, strict, generated);
    }
  }

  lemma ShownOneLine(ss: seq<Section>, names: bool)
    ensures OnOneLine(Shown(ss, names)) <==> OnOneLine(ss)
  {
    var now := Shown(ss, names);
    assert forall i :: 0 <= i < |ss| ==> now[i] in now && ss[i] in ss && now[i].options == ss[i].options;
  }

  lemma HeaderTidy(header: Maybe<string>, strict: bool)
    requires header.Some? ==> ValidName(header.value)
    ensures AllTidy(HeaderLines(header), strict) && Whole(HeaderLines(header))
  {
    if header.Some? {
      EscapeOneLine(header.value);
    }
  }

  lemma PrintedTidy(ss: seq<Section>, header: Maybe<string>, names: bool, strict: bool, generated: nat -> string)
    requires Presentable(ss, header, names, generated)
    ensures AllTidy(Printed(ss, header, names), strict) && (Whole(Printed(ss, header, names)) <==> OnOneLine(ss))
  {
    LinesTidy(Shown(ss, names), strict);
    ShownOneLine(ss, names);
    HeaderTidy(header, strict);
    FirstOf(HeaderLines(header), PackageLines(Shown(ss, names)), strict);
  }

  /** Values that an export prints on one line each are read back, unless a line is too long. */
  lemma {:induction false} LinesBack(ss: seq<Section>, header: Maybe<string>, names: bool, strict: bool,
      generated: nat -> string)
    requires Presentable(ss, header, names, generated) && OnOneLine(ss)
    ensures var r := Imported(Exported(ss, header, names), strict, generated);
            && (r.ok <==> Short(Printed(ss, header, names)))
            && (r.ok ==> r.sections == Reloaded(Shown(ss, names), generated, 0))
  {
    var m, lines, all := Import([], None, true), PackageLines(Shown(ss, names)),
      Reloaded(Shown(ss, names), generated, 0);
    PrintedTidy(ss, header, names, strict, generated);
    HeaderImported(m, header, strict, generated);
    assert [] + all == all;
    PackageImported(m, Shown(ss, names), strict, generated);
    assert ImportedLines(m, HeaderLines(header) + lines, strict, generated)
           == ImportedLines(m, lines, strict, generated);
    JoinedImported(m, Printed(ss, header, names), LINEBUF, strict, generated);
  }

  lemma {:induction false} SolidLineal(os: seq<Opt>)
    ensures Lineal(Solid(os)) ==> Lineal(os)
  {
    if os != [] {
      SolidLineal(os[1..]);
      assert os == [os[0]] + os[1..];
      if Lineal(Solid(os)) {
        assert forall o <- Solid(os[1..]) :: o in Solid(os);
        assert !Hollow(os[0]) ==> os[0] in Solid(os);
      }
    }
  }

  lemma {:induction false} ReloadedOneLine(ss: seq<Section>, generated: nat -> string, k: nat)
    ensures OnOneLine(Reloaded(ss, generated, k)) ==> OnOneLine(ss)
    decreases |ss|
  {
    if ss != [] {
      var now := Reloaded(ss, generated, k);
      assert now == [ReloadedOne(ss[0], generated(k))] + Reloaded(ss[1..], generated, k + 1);
      if OnOneLine(now) {
        assert now[0] in now && forall s <- Reloaded(ss[1..], generated, k + 1) :: s in now;
        SolidLineal(ss[0].options);
        ReloadedOneLine(ss[1..], generated, k + 1);
        assert ss == [ss[0]] + ss[1..];
      }
    }
  }

  /** Importing an exported package gives the package back, with new names for its anonymous sections and without its
      empty strings and lists, exactly if no value has a line end in it and no line is too long. A line that is too long
      makes the import fail, and in strict mode so does a value with a line end. */
  lemma {:induction false} RoundTrip(ss: seq<Section>, header: Maybe<string>, names: bool, strict: bool,
      generated: nat -> string)
    requires Presentable(ss, header, names, generated)
    ensures var r := Imported(Exported(ss, header, names), strict, generated);
            && (r.ok && r.sections == Reloaded(Shown(ss, names), generated, 0)
               <==> OnOneLine(ss) && Short(Printed(ss, header, names)))
            && (OnOneLine(ss) || strict ==> (r.ok <==> OnOneLine(ss) && Short(Printed(ss, header, names))))
  {
    if OnOneLine(ss) {
      LinesBack(ss, header, names, strict, generated);
    } else {
      var m := Import([], None, true);
      ImportedClean(m, Exported(ss, header, names), LINEBUF, strict, generated);
      ReloadedOneLine(Shown(ss, names), generated, 0);
      ShownOneLine(ss, names);
      if strict {
        PrintedTidy(ss, header, names, strict, generated);
        BrokenFails(m, Printed(ss, header, names), LINEBUF, generated);
      }
    }
  }

  lemma {:induction false} ReloadedAt(ss: seq<Section>, generated: nat -> string, k: nat, i: nat)
    requires i < |ss|
    ensures |Reloaded(ss, generated, k)| == |ss|
    ensures Reloaded(ss, generated, k)[i] == ReloadedOne(ss[i], generated(k + i))
    decreases |ss|
  {
    if |ss| > 1 {
      ReloadedAt(ss[1..], generated, k + 1, if i > 0 then i - 1 else 0);
    }
  }

  /** The options of a section survive export and import exactly if none of them is an empty string or an empty list. */
  lemma OptionsSurvive(ss: seq<Section>, header: Maybe<string>, names: bool, strict: bool, generated: nat -> string,
      i: nat)
    requires Presentable(ss, header, names, generated) && OnOneLine(ss) && Short(Printed(ss, header, names)) && i < |ss|
    ensures var r := Imported(Exported(ss, header, names), strict, generated);
            && r.ok && |r.sections| == |ss| && r.sections[i].kind == ss[i].kind
            && (r.sections[i].options == ss[i].options <==> forall o <- ss[i].options :: !Hollow(o))
  {
    RoundTrip(ss, header, names, strict, generated);
    ReloadedAt(Shown(ss, names), generated, 0, i);
    SolidExact(ss[i].options);
  }

  /** Deleting the only item of a list leaves an empty list. */
  lemma LastItemDeleted()
    ensures var ss := [Section("n", "t", false, [Opt("o", Items(["v"]))])];
            ListDeleting(ss, Expanded(ss, Named("n"), Some("o"), Some("v"))).sections
              == [Section("n", "t", false, [Opt("o", Items([]))])]
  {
    var o, e := Opt("o", Items(["v"])), Opt("o", Items([]));
    var ss := [Section("n", "t", false, [o])];
    assert ["v"][..0] == [] && Filtered(["v"], "v") == [] + [];
    assert FindSection(ss, "n") == 0 && FindOption([o], "o") == 0 && [o][0 := e] == [e];
  }

  lemma EmptyListPrinted()
    ensures var now := [Section("n", "t", false, [Opt("o", Items([]))])];
            Shown(now, false) == now && Printed(now, None, false) == ["", "config t 'n'", ""]
  {
    var e := Opt("o", Items([]));
    var now, none: seq<Section> := [Section("n", "t", false, [e])], [];
    assert [e][1..] == [] && now[1..] == none && Shown(now, false) == now;
    assert OptsLines([e]) == [] && PackageLines(none) == [""];
    assert Escape("t") == "t" + Escape("") && Escape("n") == "n" + Escape("");
    assert ConfigLine(now[0]) == "config t 'n'";
    assert PackageLines(now) == ["", "config t 'n'"] + [] + [""];
  }

  /** A list that uci_del_list has emptied (LastItemDeleted) is an option that is gone after export and import. */
  lemma EmptyListLost(strict: bool, generated: nat -> string)
    ensures var now := [Section("n", "t", false, [Opt("o", Items([]))])];
            var r := Imported(Exported(now, None, false), strict, generated);
            r.ok && r.sections == [Section("n", "t", false, [])]
  {
    var e := Opt("o", Items([]));
    var now, none: seq<Section> := [Section("n", "t", false, [e])], [];
    EmptyListPrinted();
    assert [e][1..] == [] && now[1..] == none && Solid([e]) == [] + [];
    assert Reloaded(none, generated, 1) == [] && Reloaded(now, generated, 0) == [Section("n", "t", false, [])] + [];
    RoundTrip(now, None, false, strict, generated);
  }

  /** A package with one section that has one option. */
  function Single(v: string): seq<Section> { [Section("n", "t", false, [Opt("o", Text(v))])] }

  lemma SinglePrinted(v: string, generated: nat -> string)
    requires v != ""
    ensures Presentable(Single(v), None, false, generated) && OptionLine("o", v) in Printed(Single(v), None, false)
    ensures Reloaded(Shown(Single(v), false), generated, 0) == Single(v) && (OnOneLine(Single(v)) <==> OneLine(v))
  {
    var o, none: seq<Section> := Opt("o", Text(v)), [];
    var ss := Single(v);
    assert [o][1..] == [] && ss[1..] == none && Shown(ss, false) == ss && Solid([o]) == [o] + [];
    assert Solid([o]) == [o] && ReloadedOne(ss[0], generated(0)) == ss[0];
    assert Reloaded(none, generated, 1) == [] && Reloaded(ss, generated, 0) == [ss[0]] + [];
    assert OptsLines([o]) == [OptionLine("o", v)] + [];
    assert PackageLines(ss) == ["", ConfigLine(ss[0])] + OptsLines([o]) + PackageLines(none);
    assert o in [o] && ss[0] in ss;
  }

  lemma {:induction false} EscapeLonger(v: string)
    ensures |Escape(v)| >= |v|
  {
    if v != "" {
      EscapeLonger(v[1..]);
    }
  }

  /** A value of 4095 characters makes the import of its own export fail in any mode. */
  lemma LongLineLost(strict: bool, generated: nat -> string)
    ensures var v := seq(4095, _ => 'a'); !Imported(Exported(Single(v), None, false), strict, generated).ok
  {
    var v := seq(4095, _ => 'a');
    SinglePrinted(v, generated);
    EscapeLonger(v);
    RoundTrip(Single(v), None, false, strict, generated);
  }

  /** A value with a line end in it is not there after export and import; in strict mode the import fails. */
  lemma BrokenLineLost(strict: bool, generated: nat -> string)
    ensures var r := Imported(Exported(Single("a\nb"), None, false), strict, generated);
            (strict ==> !r.ok) && (r.ok ==> r.sections != Single("a\nb"))
  {
    SinglePrinted("a\nb", generated);
    assert "a\nb"[1] == '\n';
    RoundTrip(Single("a\nb"), None, false, strict, generated);
  }
}
