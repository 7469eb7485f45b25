/** What the lines of a file do to the package that is read from it (uci_import in file.c). */
module UciFiles {
  import opened Common
  import opened UciStore
  import opened UciReplay
  import opened UciText
  import opened UciLines
  import opened UciRoundTrip
  import opened UciSyntax
  import opened UciCalls

  // ---- what a statement does ----

  /** The section at a position, for a call of libuci. */
  function At(i: nat): Ref { Extended("", None, i) }

  /** A section without a name is added at the end, and options go to it from now on. */
  lemma ConfigAdds(m: Import, kind: string, generated: nat -> string)
    requires m.Valid() && ValidType(kind)
    ensures Executed(m, Config(kind, ""), generated)
         == Import(m.sections + [Section(generated(|m.sections|), kind, true, [])], Some(|m.sections|), true)
  {
  }

  /** So is one with a new name. */
  lemma ConfigOpens(m: Import, kind: string, name: string, generated: nat -> string)
    requires m.Valid() && ValidType(kind) && name != ""
    requires forall k :: 0 <= k < |m.sections| ==> m.sections[k].name != name
    ensures Executed(m, Config(kind, name), generated)
         == Import(m.sections + [Section(name, kind, false, [])], Some(|m.sections|), true)
  {
  }

  /** A section that is there already gets the new type and keeps its options, and more of them go to it. */
  lemma ConfigReopens(m: Import, kind: string, name: string, i: nat, generated: nat -> string)
    requires m.Valid() && ValidType(kind) && name != "" && i < |m.sections| && m.sections[i].name == name
    requires forall k :: 0 <= k < i ==> m.sections[k].name != name
    ensures Executed(m, Config(kind, name), generated)
         == Import(m.sections[i := m.sections[i].(kind := kind)], Some(i), true)
  {
  }

  /** An option is set as by a call, but one without a value is ignored; an item is added as by a call. */
  lemma OptionCalls(m: Import, i: nat, name: string, value: string, generated: nat -> string)
    requires m.Valid() && m.current == Some(i)
    ensures Executed(m, Option(name, value), generated)
         == if value == "" then m
            else m.(sections := Applied(m.sections, SetValue(At(i), Some(name), Some(value))).sections)
    ensures Executed(m, List(name, value), generated)
         == m.(sections := Applied(m.sections, AddItem(At(i), Some(name), Some(value))).sections)
  {
    IndexMeans(m.sections, "", i);
  }

  /** Before the first section neither can be. */
  lemma OptionEarly(m: Import, name: string, value: string, generated: nat -> string)
    requires m.Valid() && m.current == None
    ensures Executed(m, Option(name, value), generated) == m.(ok := false)
    ensures Executed(m, List(name, value), generated) == m.(ok := false)
    ensures Executed(m, Package, generated) == m
  {
  }

  // ---- what a line does ----

  /** The statements of a line are done one after the other. */
  lemma TellsFirst(m: Import, c: Statement, cs: seq<Statement>, generated: nat -> string)
    requires m.Valid() && m.ok
    ensures ExecutedAll(m, [], generated) == m
    ensures ExecutedAll(m, [c] + cs, generated) == ExecutedAll(Executed(m, c, generated), cs, generated)
  {
    assert ([c] + cs)[1..] == cs;
  }

  /** A line changes what its statements change; in strict mode an error in it is one of the file. */
  lemma TellsAll(m: Import, line: string, strict: bool, generated: nat -> string)
    requires m.Valid() && m.ok
    ensures var r, now := ReadLine(line, strict), Told(m, line, strict, generated);
            var done := ExecutedAll(m, r.statements, generated);
            && now.sections == done.sections && now.current == done.current
            && (now.ok <==> strict ==> r.ok && done.ok)
  {
  }

  // ---- lines that do nothing ----

  /** Every line has its line end. */
  predicate Ended(text: string) { text == "" || text[|text| - 1] == '\n' }

  /** A line of blanks and perhaps a comment, perhaps with a carriage return at its end. */
  predicate Silent(g: string, c: string) {
    Blanks(g) && '\n' !in c && (c == "" || c == "\r" || c[0] == '#')
  }

  lemma SilentReads(g: string, c: string, strict: bool)
    requires Silent(g, c)
    ensures ReadLine(Trimmed(g + c), strict) == Reading([], true) && '\n' !in g + c
  {
    if c == "" {
      assert g + c == g && Trimmed(g) == g by { assert g == "" || g[|g| - 1] in g; }
      CommentReads(g, "", strict);
    } else if c[|c| - 1] == '\r' {
      assert Trimmed(g + c) == g + c[..|c| - 1];
      CommentReads(g, c[..|c| - 1], strict);
    } else {
      assert Trimmed(g + c) == g + c;
      CommentReads(g, c, strict);
    }
  }

  lemma SilentTells(m: Import, g: string, c: string, strict: bool, generated: nat -> string)
    requires m.Valid() && m.ok && Silent(g, c)
    ensures Told(m, Trimmed(g + c), strict, generated) == m
  {
    SilentReads(g, c, strict);
  }

  /** The longest line that leaves room in the buffer for a last line without its end. */
  const HALF: nat := 2046

  lemma {:induction false} GrownLow(size: nat, n: nat)
    requires BufferSize(size) && size <= 2048
    ensures Grown(size, n) <= 2048 <==> n < 2048
    decreases 2048 - size
  {
    if n >= size && size < 2048 {
      GrownLow(2 * size, n);
    }
  }

  /** A size the line buffer can have, and two of them that are equal or can both still grow. */
  ghost predicate Sized(size: nat) {
    size > 0 && forall z {:trigger Look(Files, z)} :: Look(Files, z) ==> BufferSize(size)
  }

  ghost predicate Alike(a: nat, b: nat) {
    Sized(a) && Sized(b) && forall z {:trigger Look(Files, z)} :: Look(Files, z) ==> a == b || (a <= 2048 && b <= 2048)
  }

  lemma AlikeGrown(a: nat, b: nat, i: nat, j: nat)
    requires Alike(a, b) && i < LINEBUF_MAX && j < LINEBUF_MAX && (i == j || (i < 2048 && j < 2048))
    ensures Alike(Grown(a, i), Grown(b, j))
  {
    assert Look(Files, 0);
    GrownFits(a, i);
    GrownFits(b, j);
    if a <= 2048 && b <= 2048 {
      GrownLow(a, i);
      GrownLow(b, j);
    }
  }

  lemma LineSplits(text: string) returns (l: string, rest: string)
    requires text != "" && Line(text) != text
    ensures '\n' !in l && text == l + "\n" + rest && (Ended(text) <==> Ended(rest))
  {
    l := Line(text);
    rest := text[|l| + 1..];
    assert text == l + [text[|l|]] + rest;
  }

  /** The buffer after a line of n characters. */
  ghost predicate Holding(size: nat, n: nat, now: nat) {
    && Sized(size) && Sized(now)
    && forall z {:trigger Look(Files, z)} :: Look(Files, z) ==> n <= LONGEST ==> now == Grown(size, n + 1)
  }

  lemma AlikeSelf(size: nat)
    requires Sized(size)
    ensures Alike(size, size)
  {
  }

  lemma HoldingSame(size: nat, n: nat, c: nat, d: nat)
    requires Holding(size, n, c) && Holding(size, n, d)
    ensures n <= LONGEST ==> c == d
  {
    assert Look(Files, 0);
  }

  lemma AlikeHolding(a: nat, b: nat, i: nat, j: nat, c: nat, d: nat)
    requires Alike(a, b) && Holding(a, i, c) && Holding(b, j, d) && i <= LONGEST && j <= LONGEST
    requires i == j || (i <= HALF && j <= HALF)
    ensures Alike(c, d)
  {
    assert Look(Files, 0);
    AlikeGrown(a, b, i + 1, j + 1);
  }

  /** How a text starts to be read. */
  lemma FirstLine(m: Import, l: string, rest: string, size: nat, strict: bool, generated: nat -> string)
    returns (now: nat)
    requires m.Valid() && m.ok && Sized(size) && '\n' !in l
    ensures Holding(size, |l|, now)
    ensures ImportedFrom(m, l + "\n" + rest, size, strict, generated)
         == if |l| > LONGEST then m.(ok := false)
            else ImportedFrom(Told(m, Trimmed(l), strict, generated), rest, now, strict, generated)
  {
    assert Look(Files, 0);
    LineFetched(l, rest, size);
    now := if |l| <= LONGEST then Grown(size, |l| + 1) else size;
  }

  /** The size of the buffer makes a difference only for a last line without its end. */
  lemma {:induction false} SizesAgree(m: Import, text: string, a: nat, b: nat, strict: bool, generated: nat -> string)
    requires m.Valid() && Sized(a) && Sized(b) && (Ended(text) || Alike(a, b))
    ensures ImportedFrom(m, text, a, strict, generated) == ImportedFrom(m, text, b, strict, generated)
    decreases |text|
  {
    if text != "" && m.ok {
      if Line(text) == text {
        LastAgrees(m, text, a, b, strict, generated);
      } else {
        var l, rest := LineSplits(text);
        var c := FirstLine(m, l, rest, a, strict, generated);
        var d := FirstLine(m, l, rest, b, strict, generated);
        if |l| <= LONGEST {
          if !Ended(text) {
            AlikeHolding(a, b, |l|, |l|, c, d);
          }
          SizesAgree(Told(m, Trimmed(l), strict, generated), rest, c, d, strict, generated);
        }
      }
    }
  }

  lemma LastAgrees(m: Import, text: string, a: nat, b: nat, strict: bool, generated: nat -> string)
    requires m.Valid() && text != "" && Line(text) == text && Alike(a, b)
    ensures ImportedFrom(m, text, a, strict, generated) == ImportedFrom(m, text, b, strict, generated)
  {
    LastFetched(text, a, b);
  }

  lemma LastFetched(text: string, a: nat, b: nat)
    requires text != "" && Line(text) == text && Alike(a, b)
    ensures var r, q := Fetch(text, a), Fetch(text, b);
            (r.TooLong? && q.TooLong?) || (r.Got? && q.Got? && r.line == q.line && r.rest == q.rest == "")
  {
    assert Look(Files, 0);
    if a <= 2048 && b <= 2048 {
      GrownLow(a, |text|);
      GrownLow(b, |text|);
    }
  }

  // ---- a file with one part changed ----

  /** The two texts are read alike, whatever was read before. */
  ghost predicate Equal(s: string, t: string, strict: bool, generated: nat -> string) {
    forall m: Import, size: nat :: m.Valid() && Sized(size) ==>
      ImportedFrom(m, s, size, strict, generated) == ImportedFrom(m, t, size, strict, generated)
  }

  /** The text is bad, whatever was read before. */
  ghost predicate Fatal(s: string, strict: bool, generated: nat -> string) {
    forall m: Import, size: nat :: m.Valid() && Sized(size) ==> !ImportedFrom(m, s, size, strict, generated).ok
  }

  lemma Regrouped(l: string, rest: string, s: string)
    ensures l + "\n" + rest + s == l + "\n" + (rest + s)
  {
  }

  /** It does not matter what lines are in front. */
  lemma {:induction false} EqualBehind(before: string, s: string, t: string, strict: bool, generated: nat -> string)
    requires Ended(before) && Equal(s, t, strict, generated)
    ensures Equal(before + s, before + t, strict, generated)
    decreases |before|
  {
    if before == "" {
      assert before + s == s && before + t == t;
    } else {
      var l, rest := LineSplits(before);
      EqualBehind(rest, s, t, strict, generated);
      Regrouped(l, rest, s);
      Regrouped(l, rest, t);
      EqualLine(l, rest + s, rest + t, strict, generated);
    }
  }

  lemma EqualFirst(m: Import, l: string, s: string, t: string, size: nat, strict: bool, generated: nat -> string)
    requires m.Valid() && m.ok && Sized(size) && '\n' !in l && Equal(s, t, strict, generated)
    ensures ImportedFrom(m, l + "\n" + s, size, strict, generated)
         == ImportedFrom(m, l + "\n" + t, size, strict, generated)
  {
    var c := FirstLine(m, l, s, size, strict, generated);
    var d := FirstLine(m, l, t, size, strict, generated);
    HoldingSame(size, |l|, c, d);
  }

  lemma EqualLine(l: string, s: string, t: string, strict: bool, generated: nat -> string)
    requires '\n' !in l && Equal(s, t, strict, generated)
    ensures Equal(l + "\n" + s, l + "\n" + t, strict, generated)
  {
    forall m: Import, size: nat | m.Valid() && Sized(size)
      ensures ImportedFrom(m, l + "\n" + s, size, strict, generated)
           == ImportedFrom(m, l + "\n" + t, size, strict, generated)
    {
      if m.ok {
        EqualFirst(m, l, s, t, size, strict, generated);
      }
    }
  }

  lemma {:induction false} FatalBehind(before: string, s: string, strict: bool, generated: nat -> string)
    requires Ended(before) && Fatal(s, strict, generated)
    ensures Fatal(before + s, strict, generated)
    decreases |before|
  {
    if before == "" {
      assert before + s == s;
    } else {
      var l, rest := LineSplits(before);
      FatalBehind(rest, s, strict, generated);
      Regrouped(l, rest, s);
      FatalLine(l, rest + s, strict, generated);
    }
  }

  lemma FatalLine(l: string, s: string, strict: bool, generated: nat -> string)
    requires '\n' !in l && Fatal(s, strict, generated)
    ensures Fatal(l + "\n" + s, strict, generated)
  {
    forall m: Import, size: nat | m.Valid() && Sized(size)
      ensures !ImportedFrom(m, l + "\n" + s, size, strict, generated).ok
    {
      if m.ok {
        var now := FirstLine(m, l, s, size, strict, generated);
      }
    }
  }

  /** A silent line in front of a text. */
  lemma SilentEqual(g: string, c: string, after: string, strict: bool, generated: nat -> string)
    requires Silent(g, c) && |g + c| <= LONGEST && (Ended(after) || |g + c| <= HALF)
    ensures Equal(g + c + "\n" + after, after, strict, generated)
  {
    forall m: Import, size: nat | m.Valid() && Sized(size)
      ensures ImportedFrom(m, g + c + "\n" + after, size, strict, generated)
           == ImportedFrom(m, after, size, strict, generated)
    {
      if m.ok {
        SilentReads(g, c, strict);
        SilentTells(m, g, c, strict, generated);
        SilentFirst(m, g + c, after, size, strict, generated);
      }
    }
  }

  lemma SilentGrown(size: nat, n: nat, now: nat)
    requires Holding(size, n, now) && n <= HALF
    ensures Alike(now, size)
  {
    assert Look(Files, 0);
    AlikeGrown(size, size, n + 1, 0);
    assert Grown(size, 0) == size;
  }

  lemma SilentFirst(m: Import, x: string, after: string, size: nat, strict: bool, generated: nat -> string)
    requires m.Valid() && m.ok && Sized(size) && '\n' !in x && Told(m, Trimmed(x), strict, generated) == m
    requires |x| <= LONGEST && (Ended(after) || |x| <= HALF)
    ensures ImportedFrom(m, x + "\n" + after, size, strict, generated)
         == ImportedFrom(m, after, size, strict, generated)
  {
    var now := FirstLine(m, x, after, size, strict, generated);
    if !Ended(after) {
      SilentGrown(size, |x|, now);
    }
    SizesAgree(m, after, now, size, strict, generated);
  }

  /** A buffer that is as large as it may be is too small for a last line without its end. */
  lemma {:induction false} LargeFails(m: Import, text: string, size: nat, strict: bool, generated: nat -> string)
    requires m.Valid() && !Ended(text) && Sized(size) && size > LINEBUF_MAX / 2
    ensures !ImportedFrom(m, text, size, strict, generated).ok
    decreases |text|
  {
    if m.ok && Line(text) != text {
      var l, rest := LineSplits(text);
      var now := FirstLine(m, l, rest, size, strict, generated);
      if |l| <= LONGEST {
        LongGrown(size, |l|, now);
        LargeFails(Told(m, Trimmed(l), strict, generated), rest, now, strict, generated);
      }
    }
  }

  lemma LongGrown(size: nat, n: nat, now: nat)
    requires Holding(size, n, now) && n <= LONGEST
    ensures size > LINEBUF_MAX / 2 || n > HALF ==> now > LINEBUF_MAX / 2
  {
    assert Look(Files, 0);
    if size <= 2048 {
      GrownLow(size, n + 1);
    }
  }

  lemma LongFails(m: Import, l: string, after: string, size: nat, strict: bool, generated: nat -> string)
    requires m.Valid() && m.ok && Sized(size) && '\n' !in l && (|l| > LONGEST || (!Ended(after) && |l| > HALF))
    ensures !ImportedFrom(m, l + "\n" + after, size, strict, generated).ok
  {
    var now := FirstLine(m, l, after, size, strict, generated);
    if |l| <= LONGEST {
      LongGrown(size, |l|, now);
      LargeFails(Told(m, Trimmed(l), strict, generated), after, now, strict, generated);
    }
  }

  lemma LongFatal(l: string, after: string, strict: bool, generated: nat -> string)
    requires '\n' !in l && (|l| > LONGEST || (!Ended(after) && |l| > HALF))
    ensures Fatal(l + "\n" + after, strict, generated)
  {
    forall m: Import, size: nat | m.Valid() && Sized(size)
      ensures !ImportedFrom(m, l + "\n" + after, size, strict, generated).ok
    {
      if m.ok {
        LongFails(m, l, after, size, strict, generated);
      }
    }
  }

  /** A comment or an empty line can be put between the lines of a file, unless the line is too long; in front of a last
      line without its end it may not be longer than half the buffer. */
  lemma CommentIgnored(before: string, g: string, c: string, after: string, strict: bool, generated: nat -> string)
    requires Ended(before) && Silent(g, c)
    ensures var r := Imported(before + after, strict, generated);
            var now := Imported(before + (g + c + "\n" + after), strict, generated);
            if |g + c| <= LONGEST && (Ended(after) || |g + c| <= HALF) then now == r else !now.ok
  {
    if |g + c| <= LONGEST && (Ended(after) || |g + c| <= HALF) {
      SilentEqual(g, c, after, strict, generated);
      EqualBehind(before, g + c + "\n" + after, after, strict, generated);
    } else {
      SilentReads(g, c, strict);
      LongFatal(g + c, after, strict, generated);
      FatalBehind(before, g + c + "\n" + after, strict, generated);
    }
  }

  lemma FirstAgrees(m: Import, l: string, l': string, after: string, size: nat, strict: bool, generated: nat -> string)
    requires m.Valid() && m.ok && Sized(size) && '\n' !in l && '\n' !in l' && Trimmed(l) == Trimmed(l')
    requires |l| <= LONGEST && |l'| <= LONGEST && (Ended(after) || (|l| <= HALF && |l'| <= HALF))
    ensures ImportedFrom(m, l + "\n" + after, size, strict, generated)
         == ImportedFrom(m, l' + "\n" + after, size, strict, generated)
  {
    var c := FirstLine(m, l, after, size, strict, generated);
    var d := FirstLine(m, l', after, size, strict, generated);
    if !Ended(after) {
      AlikeSelf(size);
      AlikeHolding(size, size, |l|, |l'|, c, d);
    }
    SizesAgree(Told(m, Trimmed(l), strict, generated), after, c, d, strict, generated);
  }

  /** A last line without its end. */
  lemma LastLine(m: Import, l: string, size: nat, strict: bool, generated: nat -> string)
    requires m.Valid() && m.ok && l != "" && '\n' !in l && Sized(size) && size <= 2048 && |l| < 2048
    ensures ImportedFrom(m, l, size, strict, generated) == Told(m, l, strict, generated)
  {
    assert Look(Files, 0);
    assert l[..|l|] == l;
    LineIs(l, |l|);
    GrownLow(size, |l|);
  }

  lemma ConfigAlone(m: Import, line: string, kind: string, strict: bool, generated: nat -> string)
    requires m.Valid() && m.ok && ReadLine(line, strict) == Reading([Config(kind, "")], true) && ValidType(kind)
    ensures Told(m, line, strict, generated).ok
  {
    TellsFirst(m, Config(kind, ""), [], generated);
    assert [Config(kind, "")] + [] == [Config(kind, "")];
    ConfigAdds(m, kind, generated);
  }

  lemma ConfigFine(line: string, kind: string, strict: bool, generated: nat -> string)
    requires ReadLine(line, strict) == Reading([Config(kind, "")], true) && ValidType(kind)
    requires '\n' !in line && line != "" && |line| < 2048
    ensures Imported(line, strict, generated).ok
  {
    var m := Import([], None, true);
    ConfigAlone(m, line, kind, strict, generated);
    LastLine(m, line, LINEBUF, strict, generated);
  }

  lemma PlainEnd(a: string, kind: string)
    requires Plain(kind) && '\n' !in a
    ensures '\n' !in a + kind && !Ended(a + kind) && ValidType(kind)
  {
    assert kind[|kind| - 1] in kind;
  }

  lemma PlainLine(kind: string, strict: bool) returns (line: string)
    requires Plain(kind)
    ensures line == "config " + kind && '\n' !in line && !Ended(line) && |line| == 7 + |kind| && ValidType(kind)
    ensures ReadLine(line, strict) == Reading([Config(kind, "")], true)
  {
    line := "config " + kind;
    PlainEnd("config ", kind);
    AnonymousLineReads(kind, strict);
    NoReturn("config ", kind);
  }

  /** So a long comment can make a file bad. */
  lemma CommentHurts(c: string, kind: string, strict: bool, generated: nat -> string)
    requires c != "" && c[0] == '#' && '\n' !in c && |c| > HALF && Plain(kind) && |kind| <= LINEBUF
    ensures Imported("config " + kind, strict, generated).ok
    ensures !Imported(c + "\n" + ("config " + kind), strict, generated).ok
  {
    var line := PlainLine(kind, strict);
    ConfigFine(line, kind, strict, generated);
    CommentFront(c, line, strict, generated);
  }

  lemma CommentFront(c: string, after: string, strict: bool, generated: nat -> string)
    requires c != "" && c[0] == '#' && '\n' !in c && |c| > HALF && !Ended(after)
    ensures !Imported(c + "\n" + after, strict, generated).ok
  {
    CommentIgnored("", "", c, after, strict, generated);
    assert "" + c == c && "" + (c + "\n" + after) == c + "\n" + after;
  }

  lemma ReturnEqual(l: string, l': string, after: string, strict: bool, generated: nat -> string)
    requires l' == l + "\r" && '\n' !in l && (l != "" ==> l[|l| - 1] != '\r')
    requires |l| < LONGEST && (Ended(after) || |l| < HALF)
    ensures Equal(l' + "\n" + after, l + "\n" + after, strict, generated)
  {
    assert l'[..|l|] == l && Trimmed(l) == l && Trimmed(l') == l;
    forall m: Import, size: nat | m.Valid() && Sized(size)
      ensures ImportedFrom(m, l' + "\n" + after, size, strict, generated)
           == ImportedFrom(m, l + "\n" + after, size, strict, generated)
    {
      if m.ok {
        FirstAgrees(m, l, l', after, size, strict, generated);
      }
    }
  }

  /** A carriage return at the end of a line makes no difference. */
  lemma ReturnIgnored(before: string, l: string, after: string, strict: bool, generated: nat -> string)
    requires Ended(before) && '\n' !in l && (l != "" ==> l[|l| - 1] != '\r')
    requires |l| < LONGEST && (Ended(after) || |l| < HALF)
    ensures Imported(before + (l + "\r" + "\n" + after), strict, generated)
         == Imported(before + (l + "\n" + after), strict, generated)
  {
    ReturnEqual(l, l + "\r", after, strict, generated);
    EqualBehind(before, l + "\r" + "\n" + after, l + "\n" + after, strict, generated);
  }

  // ---- when a file is read at all ----

  lemma {:induction false} LenientLines(m: Import, lines: seq<string>, generated: nat -> string)
    requires m.Valid() && m.ok
    ensures ImportedLines(m, lines, false, generated).ok
    decreases |lines|
  {
    if lines != [] {
      LenientLines(Told(m, Trimmed(lines[0]), false, generated), lines[1..], generated);
    }
  }

  /** Without strict mode only a line that is too long is an error. */
  lemma LenientExact(lines: seq<string>, generated: nat -> string)
    requires forall l <- lines :: '\n' !in l
    ensures Imported(Joined(lines), false, generated).ok <==> Short(lines)
  {
    var m := Import([], None, true);
    JoinedImported(m, lines, LINEBUF, false, generated);
    LenientLines(m, lines, generated);
  }

  function Statements(lines: seq<string>): seq<Statement> {
    if lines == [] then [] else ReadLine(Trimmed(lines[0]), true).statements + Statements(lines[1..])
  }

  /** A section comes before the first option. */
  predicate Headed(cs: seq<Statement>) { cs == [] || cs[0].Config? || (cs[0].Package? && Headed(cs[1..])) }

  predicate Typed(cs: seq<Statement>) { forall c <- cs :: c.Config? ==> ValidType(c.kind) }

  lemma {:induction false} ReadTyped(line: string, strict: bool)
    ensures Typed(ReadLine(line, strict).statements)
    decreases |line|
  {
    var r := FirstStatement(line, strict);
    if r.Take? {
      ReadTyped(r.rest, strict);
    }
  }

  /** Whether the statements can be done. */
  predicate Doable(m: Import, cs: seq<Statement>) { m.current.Some? || Headed(cs) }

  lemma {:induction false} DoneExactly(m: Import, cs: seq<Statement>, generated: nat -> string)
    requires m.Valid() && m.ok && Typed(cs)
    ensures ExecutedAll(m, cs, generated).ok <==> Doable(m, cs)
    decreases |cs|
  {
    if cs != [] {
      assert cs[0] in cs && forall c <- cs[1..] :: c in cs;
      var now := Executed(m, cs[0], generated);
      if now.ok {
        DoneExactly(now, cs[1..], generated);
      }
    }
  }

  lemma {:induction false} HeadedSum(a: seq<Statement>, b: seq<Statement>)
    ensures Headed(a + b) <==> Headed(a) && ((exists c <- a :: c.Config?) || Headed(b))
  {
    if a == [] {
      assert a + b == b;
    } else {
      assert (a + b)[1..] == a[1..] + b && a[0] in a && a == [a[0]] + a[1..];
      HeadedSum(a[1..], b);
    }
  }

  lemma {:induction false} CurrentAfter(m: Import, cs: seq<Statement>, generated: nat -> string)
    requires m.Valid() && m.ok && Typed(cs) && ExecutedAll(m, cs, generated).ok
    ensures ExecutedAll(m, cs, generated).current.Some? <==> m.current.Some? || exists c <- cs :: c.Config?
    decreases |cs|
  {
    if cs != [] {
      assert cs[0] in cs && forall c <- cs[1..] :: c in cs;
      assert cs == [cs[0]] + cs[1..];
      CurrentAfter(Executed(m, cs[0], generated), cs[1..], generated);
    }
  }

  predicate Readable(lines: seq<string>) { forall l <- lines :: ReadLine(Trimmed(l), true).ok }

  lemma {:induction false} StrictLines(m: Import, lines: seq<string>, generated: nat -> string)
    requires m.Valid() && m.ok
    ensures ImportedLines(m, lines, true, generated).ok <==> Readable(lines) && Doable(m, Statements(lines))
    decreases |lines|
  {
    if lines != [] {
      var l, rest := Trimmed(lines[0]), lines[1..];
      var r := ReadLine(l, true);
      assert lines == [lines[0]] + rest;
      ReadTyped(l, true);
      DoneExactly(m, r.statements, generated);
      HeadedSum(r.statements, Statements(rest));
      var now := Told(m, l, true, generated);
      if now.ok {
        CurrentAfter(m, r.statements, generated);
        StrictLines(now, rest, generated);
      }
    }
  }

  /** In strict mode a file is read exactly if no line is too long, every line can be read, and a section comes before
      the first option. */
  lemma StrictExact(lines: seq<string>, generated: nat -> string)
    requires forall l <- lines :: '\n' !in l
    ensures Imported(Joined(lines), true, generated).ok
       <==> Short(lines) && Readable(lines) && Headed(Statements(lines))
  {
    var m := Import([], None, true);
    JoinedImported(m, lines, LINEBUF, true, generated);
    StrictLines(m, lines, generated);
  }
}
