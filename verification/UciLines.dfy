/** The lines of an exported package and how they are read. */
module UciLines {
  import opened Common
  import opened UciStore
  import opened UciWord
  import opened UciText

  // ---- words ----

  /** What follows a word: nothing, or white space that is taken with it. */
  predicate Ends(s: string) { s == "" || Space(s[0]) }

  function Tail(s: string): string { if s == "" then "" else s[1..] }

  predicate PlainChar(c: char) { TypeChar(c) && !Special(c) && c != '#' && c != ';' }

  predicate Plain(s: string) { s != "" && forall c <- s :: PlainChar(c) }

  lemma {:induction false} WordPlain(w: string, s: string, tight: bool)
    requires Plain(w) && Ends(s)
    ensures Word(w + s, tight) == Parsed(w, Tail(s))
    decreases |w|
  {
    var t := w + s;
    assert t[1..] == w[1..] + s && t[0] == w[0] && w[0] in w;
    if |w| > 1 {
      assert w[1] in w && !Space(w[1]) && t[1..][0] == w[1];
      assert Plain(w[1..]);
      WordPlain(w[1..], s, tight);
      assert [w[0]] + w[1..] == w;
    } else {
      assert w[1..] + s == s && [w[0]] == w;
    }
  }

  /** In a quoted string a character other than a quote only lengthens the word. */
  lemma QuotedChar(c: char, x: string, tight: bool)
    requires c != '\''
    ensures Word("'" + ([c] + x), tight) == Word("'" + x, tight).After([c])
  {
    var s, t := "'" + ([c] + x), "'" + x;
    assert s[1..] == [c] + x && ([c] + x)[1..] == x && t[1..] == x;
    var r := Single(x);
    if r.Parsed? && r.rest != "" {
      if Space(r.rest[0]) {
      } else {
        AfterTwice(Word(r.rest, false), r.word, [c]);
      }
    }
  }

  /** A quote is written so that it is read as one. */
  lemma QuotedQuote(x: string, tight: bool)
    ensures Word("'" + ("'\\''" + x), tight) == Word("'" + x, false).After("'")
  {
    var s, t := "'" + ("'\\''" + x), "\\''" + x;
    assert s[1..] == "'" + t && ("'" + t)[1..] == t;
    assert Single("'" + t) == Parsed("", t);
    assert t[0] == '\\' && t[1] == '\'' && t[2..] == "'" + x;
    assert Piece(t) == Parsed("'", "'" + x);
    assert Word(s, tight) == Word(t, false).After("");
    AfterTwice(Word("'" + x, false), "'", "");
    assert "" + "'" == "'";
  }

  lemma Regroup(q: string, e: string, x: string, s: string)
    ensures q + (e + x) + q + s == q + (e + (x + q + s))
    ensures q + x + q + s == q + (x + q + s)
  {
  }

  lemma EmptyQuoted(s: string, tight: bool)
    requires Ends(s)
    ensures Word(Quote("") + s, tight) == Parsed("", Tail(s))
  {
    assert Quote("") + s == "'" + ("'" + s);
    assert ("'" + ("'" + s))[1..] == "'" + s && ("'" + s)[1..] == s;
    assert Single("'" + s) == Parsed("", s);
  }

  /** parse_str undoes quoting and uci_escape. */
  lemma {:induction false} WordQuoted(v: string, s: string, tight: bool)
    requires Ends(s)
    ensures Word(Quote(v) + s, tight) == Parsed(v, Tail(s))
    decreases |v|
  {
    if v == "" {
      EmptyQuoted(s, tight);
    } else {
      var w, x := v[1..], Escape(v[1..]) + "'" + s;
      var e := if v[0] == '\'' then "'\\''" else [v[0]];
      Regroup("'", e, Escape(w), s);
      assert Quote(v) + s == "'" + (e + x) && Quote(w) + s == "'" + x;
      if v[0] == '\'' {
        WordQuoted(w, s, false);
        QuotedQuote(x, tight);
      } else {
        WordQuoted(w, s, tight);
        QuotedChar(v[0], x, tight);
      }
      assert [v[0]] + w == v;
    }
  }

  // ---- arguments ----

  lemma {:induction false} EscapePlain(w: string)
    requires forall c <- w :: c != '\''
    ensures Escape(w) == w
  {
    if w != "" {
      assert w[0] in w && forall c <- w[1..] :: c in w;
      EscapePlain(w[1..]);
      assert [w[0]] + w[1..] == w;
    }
  }

  /** The lines of a package whose names and values have no quotes in them. */
  lemma LinesSpelled(kind: string, name: string, option: string, value: string, os: seq<Opt>)
    requires '\'' !in kind && '\'' !in name && '\'' !in option && '\'' !in value
    ensures ConfigLine(Section(name, kind, false, os)) == "config " + kind + " '" + name + "'"
    ensures ConfigLine(Section(name, kind, true, os)) == "config " + kind
    ensures OptionLine(option, value) == "\toption " + option + " '" + value + "'"
    ensures ListLine(option, value) == "\tlist " + option + " '" + value + "'"
  {
    EscapePlain(kind);
    EscapePlain(name);
    EscapePlain(option);
    EscapePlain(value);
  }

  lemma NamePlain(w: string)
    requires ValidName(w)
    ensures Plain(w)
  {
    forall c | c in w
      ensures PlainChar(c)
    {
    }
  }

  lemma ArgPlain(w: string, s: string, required: bool, name: bool)
    requires Plain(w) && Ends(s) && (name ==> ValidName(w))
    ensures Argument(w + s, required, name) == Arg(w, Tail(s))
  {
    var t := w + s;
    assert w[0] in w && t[0] == w[0];
    assert SkipBlank(t) == Some(t);
    WordPlain(w, s, true);
  }

  lemma ArgQuoted(v: string, s: string, name: bool)
    requires Ends(s) && (name && v != "" ==> ValidName(v))
    ensures Argument(Quote(v) + s, false, name) == Arg(v, Tail(s))
  {
    var t := Quote(v) + s;
    assert t[0] == '\'';
    assert SkipBlank(t) == Some(t);
    WordQuoted(v, s, true);
  }

  /** A name and a quoted value. */
  lemma ArgsQuoted(w: string, v: string, name1: bool, name2: bool, strict: bool)
    requires Plain(w) && (name1 ==> ValidName(w)) && (name2 && v != "" ==> ValidName(v))
    ensures Arguments(w + (" " + Quote(v)), name1, name2, strict) == Pair(w, v, "")
  {
    var s := " " + Quote(v);
    assert s[1..] == Quote(v) && Quote(v) + "" == Quote(v);
    ArgPlain(w, s, true, name1);
    ArgQuoted(v, "", name2);
  }

  /** A type alone. */
  lemma ArgsAlone(w: string, strict: bool)
    requires Plain(w)
    ensures Arguments(w, false, true, strict) == Pair(w, "", "")
  {
    assert w + "" == w;
    ArgPlain(w, "", true, false);
  }

  // ---- lines ----

  lemma TokenBefore(word: string, s: string)
    requires (forall c <- word :: !Blank(c)) && s != "" && Blank(s[0])
    ensures Token(word + s) == word
  {
    var t := word + s;
    assert t[|word|] == s[0] && forall k :: 0 <= k < |word| ==> t[k] in word;
    assert forall k :: 0 <= k < |Token(t)| ==> t[k] in Token(t);
  }

  /** How a line is taken apart. */
  lemma LineParts(indent: string, word: string, args: string)
    requires (indent == "" || indent == "\t") && word != "" && (forall c <- word :: !Blank(c))
    ensures var t := DropBlanks(indent + (word + (" " + args)));
            Token(t) == word && |word| < |t| && t[|word| + 1..] == args
  {
    var t := word + (" " + args);
    assert t[0] == word[0] && word[0] in word;
    IndentDropped(indent, t);
    TokenBefore(word, " " + args);
  }

  lemma IndentDropped(indent: string, t: string)
    requires (indent == "" || indent == "\t") && t != "" && !Blank(t[0])
    ensures DropBlanks(indent + t) == t
  {
    if indent == "" {
      assert indent + t == t;
    } else {
      assert (indent + t)[1..] == t;
    }
  }

  /** The statement of a line that is taken apart like this. */
  lemma ReadsPair(line: string, word: string, args: string, strict: bool, w: string, v: string)
    requires var t := DropBlanks(line); Token(t) == word && |word| < |t| && t[|word| + 1..] == args
    requires Known(word) && word[0] != 'p' && word[0] != '#'
    requires Arguments(args, word[0] != 'c', word[0] == 'c', strict) == Pair(w, v, "")
    requires word[0] == 'c' ==> ValidType(w)
    ensures ReadLine(line, strict) == Reading([Said(word[0], w, v)], true)
  {
    assert FirstStatement(line, strict) == Take(Said(word[0], w, v), "");
    ReadsOne(line, Said(word[0], w, v), strict);
  }

  function Said(c: char, w: string, v: string): Statement {
    if c == 'c' then Config(w, v) else if c == 'o' then Option(w, v) else List(w, v)
  }

  lemma ReadsOne(line: string, c: Statement, strict: bool)
    requires FirstStatement(line, strict) == Take(c, "")
    ensures ReadLine(line, strict) == Reading([c], true)
  {
    assert ReadLine("", strict) == Reading([], true);
  }

  lemma ReadsConfig(args: string, strict: bool, w: string, v: string)
    requires Arguments(args, false, true, strict) == Pair(w, v, "") && ValidType(w)
    ensures ReadLine("" + ("config" + (" " + args)), strict) == Reading([Config(w, v)], true)
  {
    LineParts("", "config", args);
    ReadsPair("" + ("config" + (" " + args)), "config", args, strict, w, v);
  }

  lemma ReadsOption(args: string, strict: bool, w: string, v: string)
    requires Arguments(args, true, false, strict) == Pair(w, v, "")
    ensures ReadLine("\t" + ("option" + (" " + args)), strict) == Reading([Option(w, v)], true)
  {
    LineParts("\t", "option", args);
    ReadsPair("\t" + ("option" + (" " + args)), "option", args, strict, w, v);
  }

  lemma ReadsList(args: string, strict: bool, w: string, v: string)
    requires Arguments(args, true, false, strict) == Pair(w, v, "")
    ensures ReadLine("\t" + ("list" + (" " + args)), strict) == Reading([List(w, v)], true)
  {
    LineParts("\t", "list", args);
    ReadsPair("\t" + ("list" + (" " + args)), "list", args, strict, w, v);
  }

  lemma ReadsPackage(name: string, strict: bool)
    requires ValidName(name)
    ensures ReadLine("" + ("package" + (" " + name)), strict) == Reading([Package], true)
  {
    NamePlain(name);
    assert name + "" == name;
    ArgPlain(name, "", true, true);
    LineParts("", "package", name);
    ReadsOne("" + ("package" + (" " + name)), Package, strict);
  }

  lemma NameEscapes(n: string)
    requires Plain(n)
    ensures Escape(n) == n
  {
    EscapePlain(n);
  }

  lemma Regroup4(a: string, b: string, c: string, d: string)
    ensures a + b + c + d == a + (b + (c + d))
  {
  }

  lemma Regroup5(a: string, b: string, c: string, d: string, e: string)
    ensures a + b + c + d + e == a + (b + (c + (d + e)))
  {
  }

  lemma {:induction false} OptionLineReads(n: string, v: string, strict: bool)
    requires ValidName(n)
    ensures ReadLine(Trimmed(OptionLine(n, v)), strict) == Reading([Option(n, v)], true)
  {
    NamePlain(n);
    NameEscapes(n);
    Regroup5("\t", "option", " ", n, " " + Quote(v));
    assert "\toption " == "\t" + "option" + " ";
    assert OptionLine(n, v) == "\t" + "option" + " " + n + (" " + Quote(v));
    ArgsQuoted(n, v, true, false, strict);
    ReadsOption(n + (" " + Quote(v)), strict, n, v);
  }

  lemma {:induction false} ListLineReads(n: string, v: string, strict: bool)
    requires ValidName(n)
    ensures ReadLine(Trimmed(ListLine(n, v)), strict) == Reading([List(n, v)], true)
  {
    NamePlain(n);
    NameEscapes(n);
    Regroup5("\t", "list", " ", n, " " + Quote(v));
    assert "\tlist " == "\t" + "list" + " ";
    assert ListLine(n, v) == "\t" + "list" + " " + n + (" " + Quote(v));
    ArgsQuoted(n, v, true, false, strict);
    ReadsList(n + (" " + Quote(v)), strict, n, v);
  }

  /** A line that ends with a plain word is not trimmed. */
  lemma NoReturn(a: string, word: string)
    requires Plain(word)
    ensures Trimmed(a + word) == a + word
  {
    assert (a + word)[|a + word| - 1] == word[|word| - 1] && word[|word| - 1] in word;
  }

  lemma {:induction false} AnonymousLineReads(kind: string, strict: bool)
    requires Plain(kind)
    ensures ReadLine(Trimmed("config " + kind), strict) == Reading([Config(kind, "")], true)
  {
    NoReturn("config ", kind);
    ArgsAlone(kind, strict);
    ReadsConfig(kind, strict, kind, "");
    assert "config " == "" + "config" + " ";
    Regroup4("", "config", " ", kind);
  }

  lemma {:induction false} NamedLineReads(kind: string, name: string, strict: bool)
    requires Plain(kind) && ValidName(name)
    ensures ReadLine(Trimmed("config " + kind + (" " + Quote(name))), strict) == Reading([Config(kind, name)], true)
  {
    var tail := " " + Quote(name);
    QuotedEnd("config " + kind, name);
    ArgsQuoted(kind, name, false, true, strict);
    ReadsConfig(kind + tail, strict, kind, name);
    Configured(kind, tail);
  }

  lemma Configured(kind: string, tail: string)
    ensures "config " + kind + tail == "" + ("config" + (" " + (kind + tail)))
  {
    assert "config " == "" + "config" + " ";
    Regroup5("", "config", " ", kind, tail);
  }

  /** A line that ends with a quoted value is not trimmed. */
  lemma QuotedEnd(a: string, v: string)
    ensures Trimmed(a + (" " + Quote(v))) == a + (" " + Quote(v))
  {
    var l := a + (" " + Quote(v));
    assert l[|l| - 1] == Quote(v)[|Quote(v)| - 1] == '\'';
  }

  lemma {:induction false} ConfigLineReads(s: Section, strict: bool)
    requires Plain(s.kind) && (!s.anonymous ==> ValidName(s.name))
    ensures ReadLine(Trimmed(ConfigLine(s)), strict)
            == Reading([Config(s.kind, if s.anonymous then "" else s.name)], true)
  {
    NameEscapes(s.kind);
    if s.anonymous {
      assert ConfigLine(s) == "config " + s.kind;
      AnonymousLineReads(s.kind, strict);
    } else {
      NamedLineReads(s.kind, s.name, strict);
    }
  }

  // ---- the line buffer ----

  /** The longest line that uci_getln takes. */
  const LONGEST: nat := 4094

  /** The sizes the line buffer can have. */
  predicate BufferSize(size: nat) { size in {32, 64, 128, 256, 512, 1024, 2048, 4096} }

  lemma {:induction false} GrownFits(size: nat, n: nat)
    requires BufferSize(size)
    ensures Grown(size, n) <= LINEBUF_MAX <==> n < LINEBUF_MAX
    ensures n < LINEBUF_MAX ==> BufferSize(Grown(size, n))
    decreases LINEBUF_MAX - size
  {
    if n >= size && size < LINEBUF_MAX {
      GrownFits(2 * size, n);
    }
  }

  lemma LineFetched(l: string, rest: string, size: nat)
    requires '\n' !in l && BufferSize(size)
    ensures Fetch(l + "\n" + rest, size)
         == if |l| <= LONGEST then Got(Trimmed(l), rest, Grown(size, |l| + 1)) else TooLong
    ensures |l| <= LONGEST ==> BufferSize(Grown(size, |l| + 1))
  {
    assert (l + "\n" + rest)[..|l|] == l;
    LineIs(l + "\n" + rest, |l|);
    GrownFits(size, |l| + 1);
    assert (l + "\n" + rest)[|l| + 1..] == rest;
  }

  lemma {:induction false} GrownHalf(size: nat, n: nat)
    requires size > 0
    ensures 2 * n < Grown(size, n) <==> 2 * n < size
    decreases n + 1 - size
  {
    if n >= size {
      GrownHalf(2 * size, n);
    }
  }

  /** After a line that ends with a backslash, parse_backslash calls uci_getln with the offset behind its NUL, and
      uci_getln clears the byte at twice that offset. This is inside the buffer exactly if it was before the line was
      read: a buffer that had to grow for the line is never large enough. */
  lemma ContinuedInside(l: string, rest: string, size: nat)
    requires '\n' !in l && l != "" && l[|l| - 1] == '\\' && |l| <= LONGEST && BufferSize(size)
    ensures var r, offset := Fetch(l + "\n" + rest, size), |l| + 1;
            r.Got? && r.line == l && offset < r.size && (2 * offset < r.size <==> 2 * offset < size)
  {
    LineFetched(l, rest, size);
    GrownHalf(size, |l| + 1);
  }

  /** In a new buffer this goes wrong for lines of more than fourteen characters. */
  lemma ContinuedOutside(rest: string)
    ensures var r, offset := Fetch("option a 'bcde\\" + "\n" + rest, LINEBUF), 16;
            r.Got? && r.line == "option a 'bcde\\" && offset == |r.line| + 1 && r.size <= 2 * offset
  {
    ContinuedInside("option a 'bcde\\", rest, LINEBUF);
  }

  predicate OneLine(v: string) { '\n' !in v }

  /** No value goes over more than one line. */
  predicate Lineal(os: seq<Opt>) {
    forall o <- os :: match o.value case Text(t) => OneLine(t) case Items(items) => forall v <- items :: OneLine(v)
  }

  lemma {:induction false} EscapeOneLine(v: string)
    requires OneLine(v)
    ensures OneLine(Escape(v))
  {
    if v != "" {
      EscapeOneLine(v[1..]);
    }
  }
}
