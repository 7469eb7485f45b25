/** Values with line ends in them: they are printed over several lines, and never come back. */
module UciBreaks {
  import opened Common
  import opened UciStore
  import opened UciWord
  import opened UciText
  import opened UciLines

  // ---- the first line of such a value ----

  /** The first line ends inside the quotes. */
  lemma {:induction false} QuoteOpen(a: string, tight: bool)
    ensures Word("'" + Escape(a), tight) == Unterminated
    decreases |a|
  {
    if a == "" {
      assert "'" + Escape(a) == "'" && "'"[1..] == "";
    } else {
      var x := Escape(a[1..]);
      if a[0] == '\'' {
        QuoteOpen(a[1..], false);
        QuotedQuote(x, tight);
      } else {
        QuoteOpen(a[1..], tight);
        QuotedChar(a[0], x, tight);
      }
    }
  }

  lemma {:induction false} EscapeSum(a: string, b: string)
    ensures Escape(a + b) == Escape(a) + Escape(b)
  {
    if a == "" {
      assert a + b == b && "" + Escape(b) == Escape(b);
    } else {
      assert (a + b)[1..] == a[1..] + b && (a + b)[0] == a[0];
      EscapeSum(a[1..], b);
      Associates(if a[0] == '\'' then "'\\''" else [a[0]], Escape(a[1..]), Escape(b));
    }
  }

  lemma EscapeOne(c: char)
    requires c != '\''
    ensures Escape([c]) == [c]
  {
    assert [c][1..] == "" && [c] + "" == [c];
  }

  /** Taking a carriage return off does not close the quotes. */
  lemma {:induction false} TrimmedOpen(a: string, v: string) returns (b: string)
    requires a != "" && a[|a| - 1] == '\''
    ensures Trimmed(a + Escape(v)) == a + Escape(b)
  {
    var l := a + Escape(v);
    b := v;
    if v == "" {
      assert l == a;
    } else {
      var k := |v| - 1;
      assert v == v[..k] + [v[k]];
      EscapeSum(v[..k], [v[k]]);
      if v[k] == '\'' {
        assert Escape([v[k]]) == "'\\''" + "" && l[|l| - 1] == '\'';
      } else {
        EscapeOne(v[k]);
        assert l == a + Escape(v[..k]) + [v[k]];
        b := if v[k] == '\r' then v[..k] else v;
      }
    }
  }

  /** A name and a quote that is not closed. */
  lemma ArgsOpen(w: string, b: string, strict: bool)
    requires ValidName(w)
    ensures Arguments(w + (" " + ("'" + Escape(b))), true, false, strict) == NoPair
  {
    var q := "'" + Escape(b);
    var s := " " + q;
    assert s[1..] == q && q[0] == '\'';
    NamePlain(w);
    ArgPlain(w, s, true, true);
    assert SkipBlank(q) == Some(q);
    QuoteOpen(b, true);
  }

  /** The start of an option or list line, up to its value. */
  function Start(word: string, n: string): string { "\t" + (word + (" " + (n + (" " + "'")))) }

  lemma Regroup6(a: string, b: string, c: string, d: string, e: string, f: string, x: string)
    ensures a + (b + (c + (d + (e + (f + x))))) == a + (b + (c + (d + (e + f)))) + x
  {
  }

  lemma ReadsBad(word: string, args: string, strict: bool)
    requires (word == "option" || word == "list") && Arguments(args, true, false, strict) == NoPair
    ensures ReadLine("\t" + (word + (" " + args)), strict) == Reading([], false)
  {
    LineParts("\t", word, args);
    StopsBad("\t" + (word + (" " + args)), word, args, strict);
  }

  lemma StopsBad(line: string, word: string, args: string, strict: bool)
    requires var t := DropBlanks(line); Token(t) == word && |word| < |t| && t[|word| + 1..] == args
    requires (word == "option" || word == "list") && Arguments(args, true, false, strict) == NoPair
    ensures ReadLine(line, strict) == Reading([], false)
  {
    assert FirstStatement(line, strict) == End(false);
  }

  /** The line with the start of such a value is an error. */
  lemma {:induction false} OpenLineBad(word: string, n: string, v: string, strict: bool)
    requires (word == "option" || word == "list") && ValidName(n)
    ensures ReadLine(Trimmed(Start(word, n) + Escape(v)), strict) == Reading([], false)
  {
    var a := Start(word, n);
    assert a[|a| - 1] == '\'';
    var b := TrimmedOpen(a, v);
    Regroup6("\t", word, " ", n, " ", "'", Escape(b));
    ArgsOpen(n, b, strict);
    ReadsBad(word, n + (" " + ("'" + Escape(b))), strict);
  }

  /** A line that breaks off inside the quotes. */
  ghost predicate Broken(l: string, strict: bool) {
    exists bad, more :: Breaks(l, bad, more, strict)
  }

  ghost predicate Breaks(l: string, bad: string, more: string, strict: bool) {
    OneLine(bad) && l == bad + "\n" + more && !ReadLine(Trimmed(bad), strict).ok
  }

  /** A string with a line end up to the first one. */
  lemma {:induction false} FirstBreak(v: string) returns (a: string, b: string)
    requires !OneLine(v)
    ensures v == a + "\n" + b && OneLine(a)
  {
    a := Line(v);
    assert v[..|v|] == v;
    b := v[|a| + 1..];
    assert v == v[..|a|] + [v[|a|]] + v[|a| + 1..];
  }

  lemma EscapeBreak(a: string, b: string)
    ensures Escape(a + "\n" + b) == Escape(a) + "\n" + Escape(b)
  {
    EscapeSum(a + "\n", b);
    EscapeSum(a, "\n");
    EscapeOne('\n');
  }

  lemma BreakInside(s: string, a: string, b: string, q: string)
    ensures s + (a + "\n" + b + q) == s + a + "\n" + (b + q)
  {
  }

  lemma {:induction false} ValueBreaks(word: string, n: string, v: string, strict: bool)
    requires (word == "option" || word == "list") && ValidName(n) && !OneLine(v)
    ensures Broken(Start(word, n) + (Escape(v) + "'"), strict)
  {
    var a, b := FirstBreak(v);
    EscapeBreak(a, b);
    BreakInside(Start(word, n), Escape(a), Escape(b), "'");
    OpenLineBad(word, n, a, strict);
    StartOneLine(word, n);
    EscapeOneLine(a);
    assert Breaks(Start(word, n) + (Escape(v) + "'"), Start(word, n) + Escape(a), Escape(b) + "'", strict);
  }

  lemma StartOneLine(word: string, n: string)
    requires (word == "option" || word == "list") && ValidName(n)
    ensures OneLine(Start(word, n))
  {
    NameOneLine(n);
  }

  lemma NameOneLine(n: string)
    requires ValidName(n)
    ensures OneLine(n)
  {
  }

  // ---- what comes from single lines ----

  lemma {:induction false} SkipBlankClean(s: string, c: char)
    requires c !in s
    ensures SkipBlank(s).Some? ==> c !in SkipBlank(s).value
  {
    if s != "" && Space(s[0]) {
      SkipBlankClean(s[1..], c);
    }
  }

  lemma ArgumentClean(s: string, required: bool, name: bool, c: char)
    requires c !in s
    ensures var a := Argument(s, required, name); a.Arg? ==> c !in a.word && c !in a.rest
  {
    SkipBlankClean(s, c);
    var u := SkipBlank(s);
    if u.Some? {
      WordClean(u.value, |s| == |u.value|, c);
    }
  }

  lemma ArgumentsClean(s: string, name1: bool, name2: bool, strict: bool, c: char)
    requires c !in s
    ensures var p := Arguments(s, name1, name2, strict); p.Pair? ==> c !in p.second && c !in p.rest
  {
    ArgumentClean(s, true, name1, c);
    var a := Argument(s, true, name1);
    if a.Arg? {
      ArgumentClean(a.rest, false, name2, c);
      var b := Argument(a.rest, false, name2);
      if b.Arg? {
        RestClean(b.rest, c);
      }
    }
  }

  lemma RestClean(s: string, c: char)
    requires c !in s
    ensures var u := SkipBlank(s); u.Some? ==> var a := Argument(u.value, false, false); a.Arg? ==> c !in a.rest
  {
    SkipBlankClean(s, c);
    if SkipBlank(s).Some? {
      ArgumentClean(SkipBlank(s).value, false, false, c);
    }
  }

  lemma PackageClean(s: string, strict: bool, c: char)
    requires c !in s
    ensures var r := PackageArgument(s, strict); r.Some? ==> c !in r.value
  {
    ArgumentClean(s, true, true, c);
    var a := Argument(s, true, true);
    if a.Arg? {
      RestClean(a.rest, c);
    }
  }

  predicate Lined(c: Statement) { (c.Option? || c.List?) ==> OneLine(c.value) }

  lemma {:induction false} DropBlanksClean(s: string, c: char)
    requires c !in s
    ensures c !in DropBlanks(s)
  {
    if s != "" && Blank(s[0]) {
      DropBlanksClean(s[1..], c);
    }
  }

  lemma StatementClean(s: string, strict: bool)
    requires OneLine(s)
    ensures var r := FirstStatement(s, strict); r.Take? ==> Lined(r.statement) && OneLine(r.rest)
  {
    DropBlanksClean(s, '\n');
    var t := DropBlanks(s);
    var word := Token(t);
    if |word| < |t| && t != "" && word[0] != '#' && Known(word) {
      var args := t[|word| + 1..];
      PackageClean(args, strict, '\n');
      ArgumentsClean(args, word[0] != 'c', word[0] == 'c', strict, '\n');
    }
  }

  lemma {:induction false} ReadClean(s: string, strict: bool)
    requires OneLine(s)
    ensures forall c <- ReadLine(s, strict).statements :: Lined(c)
    decreases |s|
  {
    StatementClean(s, strict);
    match FirstStatement(s, strict)
    case End(_) =>
    case Take(c, rest) => ReadClean(rest, strict);
  }

  /** No value of the package goes over more than one line. */
  predicate OnOneLine(ss: seq<Section>) { forall s <- ss :: Lineal(s.options) }

  lemma OneSection(ss: seq<Section>, i: nat, os: seq<Opt>)
    requires OnOneLine(ss) && i < |ss| && Lineal(os)
    ensures OnOneLine(WithOptions(ss, i, os))
  {
  }

  lemma OneOption(os: seq<Opt>, o: Opt)
    requires Lineal(os) && Lineal([o])
    ensures Lineal(os + [o])
  {
    assert o in [o];
  }

  lemma OneText(name: string, v: string)
    requires OneLine(v)
    ensures Lineal([Opt(name, Text(v))]) && Lineal([Opt(name, Items([v]))])
  {
  }

  lemma SettingClean(ss: seq<Section>, s: nat, name: string, v: string)
    requires OnOneLine(ss) && s < |ss| && OneLine(v) && v != ""
    ensures OnOneLine(Setting(ss, Filled(ss, s, name, v)).sections)
  {
    var p, os := Filled(ss, s, name, v), ss[s].options;
    var less := if p.o.Some? then Drop(os, p.o.value) else os;
    assert ss[s] in ss && forall o <- less :: o in os;
    OneText(name, v);
    OneOption(less, Opt(name, Text(v)));
    OneSection(ss, s, less + [Opt(name, Text(v))]);
  }

  lemma ListAddingClean(ss: seq<Section>, s: nat, name: string, v: string)
    requires OnOneLine(ss) && s < |ss| && OneLine(v)
    ensures OnOneLine(ListAdding(ss, Filled(ss, s, name, v)).sections)
  {
    var p, os := Filled(ss, s, name, v), ss[s].options;
    assert ss[s] in ss;
    if p.o.None? {
      OneText(name, v);
      OneOption(os, Opt(name, Items([v])));
      OneSection(ss, s, os + [Opt(name, Items([v]))]);
    } else {
      var k := p.o.value;
      assert os[k] in os;
      match os[k].value
      case Text(t) =>
        var less, o := Drop(os, k), Opt(name, Items([t, v]));
        assert forall q <- less :: q in os;
        assert Lineal([o]);
        OneOption(less, o);
        OneSection(ss, s, less + [o]);
      case Items(items) =>
        var more := os[k := os[k].(value := Items(items + [v]))];
        assert forall q <- more :: q in os || q == os[k].(value := Items(items + [v]));
        OneSection(ss, s, more);
    }
  }

  lemma ExecutedClean(m: Import, c: Statement, generated: nat -> string)
    requires m.Valid() && OnOneLine(m.sections) && Lined(c)
    ensures OnOneLine(Executed(m, c, generated).sections)
  {
    match c
    case Package =>
    case Config(kind, name) =>
    case Option(name, value) =>
      if m.current.Some? && value != "" {
        SettingClean(m.sections, m.current.value, name, value);
      }
    case List(name, value) =>
      if m.current.Some? {
        ListAddingClean(m.sections, m.current.value, name, value);
      }
  }

  lemma {:induction false} ExecutedAllClean(m: Import, cs: seq<Statement>, generated: nat -> string)
    requires m.Valid() && OnOneLine(m.sections) && forall c <- cs :: Lined(c)
    ensures OnOneLine(ExecutedAll(m, cs, generated).sections)
    decreases |cs|
  {
    if cs != [] && m.ok {
      assert cs[0] in cs && forall c <- cs[1..] :: c in cs;
      ExecutedClean(m, cs[0], generated);
      ExecutedAllClean(Executed(m, cs[0], generated), cs[1..], generated);
    }
  }

  /** Whatever text is imported, no value has a line end in it. */
  lemma {:induction false} ImportedClean(m: Import, text: string, size: nat, strict: bool, generated: nat -> string)
    requires m.Valid() && size > 0 && OnOneLine(m.sections)
    ensures OnOneLine(ImportedFrom(m, text, size, strict, generated).sections)
    decreases |text|
  {
    if text != "" && m.ok {
      match Fetch(text, size)
      case TooLong =>
      case Got(line, rest, now) =>
        ReadClean(line, strict);
        ExecutedAllClean(m, ReadLine(line, strict).statements, generated);
        ImportedClean(Told(m, line, strict, generated), rest, now, strict, generated);
    }
  }
}
