/** The text form of a package: uci_export_package and the command parser behind uci_import (file.c). */
module UciText {
  import opened Common
  import opened UciStore
  import opened UciReplay
  import opened UciWord

  // ---- export ----

  /** uci_escape: a quote is written as a closing quote, an escaped quote and an opening quote. */
  function Escape(s: string): string {
    if s == "" then "" else (if s[0] == '\'' then "'\\''" else [s[0]]) + Escape(s[1..])
  }

  function Quote(s: string): string { "'" + Escape(s) + "'" }

  function ConfigLine(s: Section): string {
    "config " + Escape(s.kind) + if s.anonymous then "" else " " + Quote(s.name)
  }

  function OptionLine(name: string, value: string): string { "\toption " + Escape(name) + " " + Quote(value) }

  function ListLine(name: string, value: string): string { "\tlist " + Escape(name) + " " + Quote(value) }

  function ListLines(name: string, items: seq<string>): seq<string> {
    if items == [] then [] else [ListLine(name, items[0])] + ListLines(name, items[1..])
  }

  function OptLines(o: Opt): seq<string> {
    match o.value
    case Text(t) => [OptionLine(o.name, t)]
    case Items(items) => ListLines(o.name, items)
  }

  function OptsLines(os: seq<Opt>): seq<string> {
    if os == [] then [] else OptLines(os[0]) + OptsLines(os[1..])
  }

  function SectionLines(s: Section): seq<string> {
    ["", ConfigLine(s)] + OptsLines(s.options)
  }

  /** The sections of a package, without the names of anonymous ones. */
  function PackageLines(ss: seq<Section>): seq<string> {
    if ss == [] then [""] else SectionLines(ss[0]) + PackageLines(ss[1..])
  }

  function Joined(lines: seq<string>): string {
    if lines == [] then "" else lines[0] + "\n" + Joined(lines[1..])
  }

  /** With UCI_FLAG_EXPORT_NAME anonymous sections are printed like named ones. */
  function Shown(ss: seq<Section>, names: bool): seq<Section> {
    seq(|ss|, i requires 0 <= i < |ss| => if names then ss[i].(anonymous := false) else ss[i])
  }

  function HeaderLines(header: Maybe<string>): seq<string> {
    if header.None? then [] else ["package " + Escape(header.value)]
  }

  /** uci_export_package, perhaps with the name of the package in front. */
  function Exported(ss: seq<Section>, header: Maybe<string>, names: bool): string {
    Joined(HeaderLines(header) + PackageLines(Shown(ss, names)))
  }

  // ---- import ----

  /** The line at the start of a text, without its end. */
  function Line(text: string): (l: string)
    ensures |l| <= |text| && l == text[..|l|] && '\n' !in l && (|l| < |text| ==> text[|l|] == '\n')
  {
    if text == "" || text[0] == '\n' then "" else [text[0]] + Line(text[1..])
  }

  lemma LineIs(text: string, k: nat)
    requires k <= |text| && '\n' !in text[..k] && (k < |text| ==> text[k] == '\n')
    ensures Line(text) == text[..k]
  {
    var l := Line(text);
    assert forall i :: 0 <= i < k ==> text[i] in text[..k];
    assert forall i :: 0 <= i < |l| ==> text[i] in l;
  }

  /** uci_getln takes a carriage return before the line end off. */
  function Trimmed(l: string): string {
    if l != "" && l[|l| - 1] == '\r' then l[..|l| - 1] else l
  }

  datatype Statement =
    | Config(kind: string, name: string)
    | Option(name: string, value: string)
    | List(name: string, value: string)
    | Package

  /** The commands of a line, and whether it was read without an error. */
  datatype Reading = Reading(statements: seq<Statement>, ok: bool)
  {
    function After(c: Statement): Reading { Reading([c] + statements, ok) }
  }

  predicate Blank(c: char) { c == ' ' || c == '\t' }

  function DropBlanks(s: string): (r: string)
    ensures |r| <= |s| && (r != "" ==> !Blank(r[0]))
  {
    if s != "" && Blank(s[0]) then DropBlanks(s[1..]) else s
  }

  function Token(s: string): (r: string)
    ensures r <= s && (forall c <- r :: !Blank(c)) && (|r| < |s| ==> Blank(s[|r|]))
  {
    if s == "" || Blank(s[0]) then "" else [s[0]] + Token(s[1..])
  }

  predicate Known(word: string) { word in {"p", "package", "c", "config", "o", "option", "l", "list"} }

  /** The name after `package`, up to the end of the line; what is left of the line, if it could be read. */
  function PackageArgument(s: string, strict: bool): (r: Maybe<string>)
    ensures r.Some? ==> |r.value| <= |s|
  {
    var a := Argument(s, true, true);
    if a.Bad? then None
    else
      var u := SkipBlank(a.rest);
      if u.None? then None
      else
        var e := Argument(u.value, false, false);
        if e.Bad? || (strict && e.word != "") then None else Some(e.rest)
  }

  /** One round of uci_parse_line: the line ends, well or badly, or there is a statement. A command without
      arguments at the end of the line is bad: the parser reads past it. */
  datatype Step = End(ok: bool) | Take(statement: Statement, rest: string)

  function FirstStatement(s: string, strict: bool): (r: Step)
    ensures r.Take? ==> |r.rest| < |s|
  {
    var t := DropBlanks(s);
    var word := Token(t);
    if t == "" || word[0] == '#' then End(true)
    else if |word| == |t| || !Known(word) then End(false)
    else
      var args := t[|word| + 1..];
      if word[0] == 'p' then
        var rest := PackageArgument(args, strict);
        if rest.None? then End(false) else Take(Package, rest.value)
      else
        var p := Arguments(args, word[0] != 'c', word[0] == 'c', strict);
        if p.NoPair? || (word[0] == 'c' && !ValidType(p.first)) then End(false)
        else Take(if word[0] == 'c' then Config(p.first, p.second)
                  else if word[0] == 'o' then Option(p.first, p.second)
                  else List(p.first, p.second), p.rest)
  }

  /** uci_parse_line */
  function ReadLine(s: string, strict: bool): Reading
    decreases |s|
  {
    match FirstStatement(s, strict)
    case End(ok) => Reading([], ok)
    case Take(c, rest) => ReadLine(rest, strict).After(c)
  }

  /** The package being read and the section that options go to. */
  datatype Import = Import(sections: seq<Section>, current: Maybe<nat>, ok: bool)
  {
    predicate Valid() { current.Some? ==> current.value < |sections| }
  }

  /** The pointer that uci_fill_ptr and a lookup by name make. */
  function Filled(ss: seq<Section>, s: nat, option: string, value: string): (p: Ptr)
    requires s < |ss|
    ensures Fits(ss, p) && Sought(ss, p)
  {
    var os := ss[s].options;
    Ptr(ss[s].name, Some(s), Some(option), Found(FindOption(os, option), |os|), Some(value))
  }

  /** uci_parse_config, uci_parse_option and uci_parse_package. An option set to the empty string is ignored,
      because the pointer is not marked as looked up. */
  function Executed(m: Import, c: Statement, generated: nat -> string): (r: Import)
    requires m.Valid()
    ensures r.Valid()
  {
    var ss := m.sections;
    match c
    case Package => m
    case Config(kind, name) =>
      if !ValidType(kind) then m.(ok := false)
      else if name == "" then Import(Adding(ss, kind, generated(|ss|)).sections, Some(|ss|), true)
      else
        var i := FindSection(ss, name);
        Import(Setting(ss, Ptr(name, Found(i, |ss|), None, None, Some(kind))).sections, Some(i), true)
    case Option(name, value) =>
      if m.current.None? then m.(ok := false)
      else if value == "" then m
      else m.(sections := Setting(ss, Filled(ss, m.current.value, name, value)).sections)
    case List(name, value) =>
      if m.current.None? then m.(ok := false)
      else m.(sections := ListAdding(ss, Filled(ss, m.current.value, name, value)).sections)
  }

  function ExecutedAll(m: Import, cs: seq<Statement>, generated: nat -> string): (r: Import)
    requires m.Valid()
    ensures r.Valid()
    decreases |cs|
  {
    if cs == [] || !m.ok then m else ExecutedAll(Executed(m, cs[0], generated), cs[1..], generated)
  }

  /** What a line does. An error ends the line, and in strict mode the reading. */
  function Told(m: Import, line: string, strict: bool, generated: nat -> string): (r: Import)
    requires m.Valid()
    ensures r.Valid()
  {
    var r := ReadLine(line, strict);
    var now := ExecutedAll(m, r.statements, generated);
    now.(ok := !strict || (now.ok && r.ok))
  }

  const LINEBUF: nat := 32
  const LINEBUF_MAX: nat := 4096

  /** The size of the line buffer once it can hold n characters and a NUL. */
  function Grown(size: nat, n: nat): (r: nat)
    requires size > 0
    ensures size <= r && n < r
    decreases n + 1 - size
  {
    if n < size then size else Grown(2 * size, n)
  }

  datatype Fetched = TooLong | Got(line: string, rest: string, size: nat)

  /** uci_getln on a text that is not empty. A last line without its end is taken as it is, but for it the buffer has to
      grow once more. */
  function Fetch(text: string, size: nat): (r: Fetched)
    requires text != "" && size > 0
    ensures r.Got? ==> |r.rest| < |text| && r.size > 0
  {
    var l := Line(text);
    if |l| < |text| then
      var now := Grown(size, |l| + 1);
      if now > LINEBUF_MAX then TooLong else Got(Trimmed(l), text[|l| + 1..], now)
    else
      var now := Grown(size, |l|);
      if now > LINEBUF_MAX / 2 then TooLong else Got(l, "", 2 * now)
  }

  /** The loop of uci_import. A line that is too long ends it in any mode. */
  function ImportedFrom(m: Import, text: string, size: nat, strict: bool, generated: nat -> string): (r: Import)
    requires m.Valid() && size > 0
    ensures r.Valid()
    decreases |text|
  {
    if text == "" || !m.ok then m
    else match Fetch(text, size)
      case TooLong => m.(ok := false)
      case Got(line, rest, now) => ImportedFrom(Told(m, line, strict, generated), rest, now, strict, generated)
  }

  /** uci_import of a single package into a new one. */
  function Imported(text: string, strict: bool, generated: nat -> string): Import {
    ImportedFrom(Import([], None, true), text, LINEBUF, strict, generated)
  }
}
