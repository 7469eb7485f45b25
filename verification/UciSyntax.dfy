/** The ways to write a line of a configuration file, said with its characters, and how each is read (file.c). */
module UciSyntax {
  import opened Common
  import opened UciStore
  import opened UciWord
  import opened UciText
  import opened UciLines

  // ---- words ----

  /** A character, perhaps with a backslash in front of it. */
  datatype Mark = Mark(c: char, escaped: bool)

  function Marks(ms: seq<Mark>): string {
    if ms == [] then "" else (if ms[0].escaped then ['\\', ms[0].c] else [ms[0].c]) + Marks(ms[1..])
  }

  function Chars(ms: seq<Mark>): string { if ms == [] then "" else [ms[0].c] + Chars(ms[1..]) }

  /** A part of a word: between single quotes, between double quotes, or a character without quotes. */
  datatype Part = Singly(text: string) | Doubly(marks: seq<Mark>) | Bare(mark: Mark)
  {
    predicate Valid() {
      match this
      case Singly(text) => '\'' !in text
      case Doubly(ms) => forall m <- ms :: m.escaped || (m.c != '"' && m.c != '\\')
      case Bare(m) => m.escaped || !(Space(m.c) || m.c in {'\'', '"', '\\', '#', ';'})
    }

    function Spelling(): (r: string)
      ensures r != ""
    {
      match this
      case Singly(text) => "'" + (text + "'")
      case Doubly(ms) => "\"" + (Marks(ms) + "\"")
      case Bare(m) => if m.escaped then ['\\', m.c] else [m.c]
    }

    function Meaning(): string {
      match this
      case Singly(text) => text
      case Doubly(ms) => Chars(ms)
      case Bare(m) => [m.c]
    }

    predicate Naked() { Bare? && !mark.escaped }
  }

  function Spelling(ps: seq<Part>): string { if ps == [] then "" else ps[0].Spelling() + Spelling(ps[1..]) }

  function Meaning(ps: seq<Part>): string { if ps == [] then "" else ps[0].Meaning() + Meaning(ps[1..]) }

  predicate Proper(ps: seq<Part>) { ps != [] && forall p <- ps :: p.Valid() }

  predicate Naked(ps: seq<Part>) { forall p <- ps :: p.Naked() }

  lemma {:induction false} SingleReads(text: string, s: string)
    requires '\'' !in text
    ensures Single(text + ("'" + s)) == Parsed(text, s)
  {
    var t := text + ("'" + s);
    if text == "" {
      assert t == "'" + s && t[1..] == s;
    } else {
      assert t[1..] == text[1..] + ("'" + s) && t[0] == text[0] && text[0] in text;
      SingleReads(text[1..], s);
      assert [text[0]] + text[1..] == text;
    }
  }

  lemma {:induction false} DoubleReads(ms: seq<Mark>, s: string)
    requires Doubly(ms).Valid()
    ensures Double(Marks(ms) + ("\"" + s)) == Parsed(Chars(ms), s)
  {
    if ms == [] {
      var t := Marks(ms) + ("\"" + s);
      assert t == "\"" + s && t[1..] == s;
    } else {
      assert ms[0] in ms && forall x <- ms[1..] :: x in ms;
      DoubleReads(ms[1..], s);
      DoubleStep(ms, "\"" + s);
    }
  }

  lemma TwoChars(c: char, rest: string, s: string)
    ensures var t := ['\\', c] + rest + s; t[0] == '\\' && t[1] == c && t[2..] == rest + s
  {
  }

  lemma DoubleStep(ms: seq<Mark>, s: string)
    requires ms != [] && (ms[0].escaped || (ms[0].c != '"' && ms[0].c != '\\'))
    ensures Double(Marks(ms) + s) == Double(Marks(ms[1..]) + s).After([ms[0].c])
  {
    var rest := Marks(ms[1..]);
    if ms[0].escaped {
      TwoChars(ms[0].c, rest, s);
    } else {
      assert ([ms[0].c] + rest + s)[1..] == rest + s;
    }
  }

  lemma PartReads(p: Part, s: string)
    requires p.Valid()
    ensures Piece(p.Spelling() + s) == Parsed(p.Meaning(), s)
  {
    match p
    case Singly(text) => SinglyReads(text, s);
    case Doubly(ms) => DoublyReads(ms, s);
    case Bare(m) =>
      var t := p.Spelling() + s;
      assert t[if m.escaped then 2 else 1..] == s;
  }

  lemma SinglyReads(text: string, s: string)
    requires '\'' !in text
    ensures Piece(Singly(text).Spelling() + s) == Parsed(text, s)
  {
    assert (Singly(text).Spelling() + s)[1..] == text + ("'" + s);
    SingleReads(text, s);
  }

  lemma DoublyReads(ms: seq<Mark>, s: string)
    requires Doubly(ms).Valid()
    ensures Piece(Doubly(ms).Spelling() + s) == Parsed(Chars(ms), s)
  {
    assert (Doubly(ms).Spelling() + s)[1..] == Marks(ms) + ("\"" + s);
    DoubleReads(ms, s);
  }

  /** What can come behind a word. */
  predicate Stops(s: string) { s == "" || Space(s[0]) || s[0] == '#' || s[0] == ';' }

  /** What is left: the white space is taken with the word, a comment is dropped, and so is everything behind a
      semicolon that the word was written up to. */
  function Behind(s: string, tight: bool): string {
    if s == "" || s[0] == '#' then "" else if Space(s[0]) then s[1..] else if tight then "" else s
  }

  lemma SpellingStarts(p: Part, s: string)
    requires p.Valid()
    ensures var c := (p.Spelling() + s)[0]; !Space(c) && c != '#' && c != ';' && (Special(c) <==> !p.Naked())
  {
  }

  lemma WordStep(p: Part, rest: string, tight: bool)
    requires p.Valid() && rest != "" && !Space(rest[0])
    ensures Word(p.Spelling() + rest, tight) == Word(rest, tight && p.Naked()).After(p.Meaning())
  {
    PartReads(p, rest);
    SpellingStarts(p, rest);
  }

  lemma SpellingParts(ps: seq<Part>, s: string)
    requires Proper(ps)
    ensures ps[0].Valid() && Spelling(ps) + s == ps[0].Spelling() + (Spelling(ps[1..]) + s)
  {
    assert ps[0] in ps;
  }

  lemma OnePart(p: Part)
    ensures Spelling([p]) == p.Spelling() && Meaning([p]) == p.Meaning() && (Naked([p]) <==> p.Naked())
  {
    assert p in [p] && [p][1..] == [] && p.Spelling() + "" == p.Spelling() && p.Meaning() + "" == p.Meaning();
  }

  lemma ProperRest(ps: seq<Part>)
    requires Proper(ps) && |ps| > 1
    ensures Proper(ps[1..]) && (Naked(ps) <==> ps[0].Naked() && Naked(ps[1..]))
  {
    assert ps == [ps[0]] + ps[1..];
  }

  /** How a word starts. */
  lemma SpellingHead(ps: seq<Part>, s: string)
    requires Proper(ps)
    ensures var t := Spelling(ps) + s;
            && t != "" && !Space(t[0]) && t[0] != '#' && t[0] != ';'
            && (t[0] == '\\' <==> ps[0].Bare? && ps[0].mark.escaped)
  {
    SpellingParts(ps, s);
    SpellingStarts(ps[0], Spelling(ps[1..]) + s);
  }

  /** A word means the characters of its parts, however they are quoted. */
  lemma {:induction false} WordReads(ps: seq<Part>, s: string, tight: bool)
    requires Proper(ps) && Stops(s)
    ensures Word(Spelling(ps) + s, tight) == Parsed(Meaning(ps), Behind(s, tight && Naked(ps)))
    decreases |ps|
  {
    var p, rest := ps[0], Spelling(ps[1..]) + s;
    SpellingParts(ps, s);
    if |ps| == 1 {
      assert ps == [p];
      OnePart(p);
      WordEnds(p, s, tight);
    } else {
      ProperRest(ps);
      SpellingHead(ps[1..], s);
      WordStep(p, rest, tight);
      WordReads(ps[1..], s, tight && p.Naked());
    }
  }

  lemma WordEnds(p: Part, s: string, tight: bool)
    requires p.Valid() && Stops(s)
    ensures Word(p.Spelling() + s, tight) == Parsed(p.Meaning(), Behind(s, tight && p.Naked()))
  {
    PartReads(p, s);
    SpellingStarts(p, s);
    assert p.Meaning() + "" == p.Meaning();
  }

  /** A quote that is not closed makes a word bad, whatever is in front of it. */
  lemma {:induction false} WordOpen(ps: seq<Part>, s: string, tight: bool)
    requires (ps == [] || Proper(ps)) && s != "" && Special(s[0]) && !Piece(s).Parsed?
    ensures Word(Spelling(ps) + s, tight) == Piece(s)
    decreases |ps|
  {
    if ps == [] {
      assert Spelling(ps) + s == s;
    } else {
      var p, rest := ps[0], Spelling(ps[1..]) + s;
      SpellingParts(ps, s);
      if |ps| > 1 {
        ProperRest(ps);
        SpellingHead(ps[1..], s);
      } else {
        assert rest == s;
      }
      WordStep(p, rest, tight);
      WordOpen(ps[1..], s, tight && p.Naked());
    }
  }

  lemma {:induction false} SingleOpen(text: string)
    requires '\'' !in text
    ensures Single(text) == Unterminated
  {
    if text != "" {
      assert text[0] in text;
      SingleOpen(text[1..]);
    }
  }

  lemma {:induction false} DoubleOpen(ms: seq<Mark>)
    requires Doubly(ms).Valid()
    ensures Double(Marks(ms)) == Unterminated
  {
    if ms != [] {
      var m, t := ms[0], Marks(ms);
      assert m in ms && forall x <- ms[1..] :: x in ms;
      assert t[if m.escaped then 2 else 1..] == Marks(ms[1..]);
      DoubleOpen(ms[1..]);
    }
  }

  /** The two quotes, not closed. */
  lemma OpenQuotes(ps: seq<Part>, text: string, ms: seq<Mark>, tight: bool)
    requires (ps == [] || Proper(ps)) && '\'' !in text && Doubly(ms).Valid()
    ensures Word(Spelling(ps) + ("'" + text), tight) == Unterminated
    ensures Word(Spelling(ps) + ("\"" + Marks(ms)), tight) == Unterminated
  {
    var s, d := "'" + text, "\"" + Marks(ms);
    assert s[1..] == text && d[1..] == Marks(ms);
    SingleOpen(text);
    DoubleOpen(ms);
    WordOpen(ps, s, tight);
    WordOpen(ps, d, tight);
  }

  // ---- arguments ----

  predicate Blanks(g: string) { forall c <- g :: c == ' ' || c == '\t' }

  lemma {:induction false} SkipsBlanks(g: string, s: string)
    requires Blanks(g) && (s == "" || (!Space(s[0]) && s[0] != '\\'))
    ensures SkipBlank(g + s) == Some(s)
  {
    if g == "" {
      assert g + s == s;
    } else {
      assert g[0] in g && (g + s)[1..] == g[1..] + s && forall c <- g[1..] :: c in g;
      SkipsBlanks(g[1..], s);
    }
  }

  /** A word that does not start with a backslash: skip_whitespace would drop it. */
  predicate Starts(ps: seq<Part>) { Proper(ps) && (ps[0].Bare? ==> !ps[0].mark.escaped) }

  lemma ArgWord(g: string, t: string, required: bool, name: bool)
    requires Blanks(g) && t != "" && !Space(t[0]) && t[0] != '\\' && t[0] != ';'
    ensures Argument(g + t, required, name) == Checked(Word(t, g == ""), required, name)
  {
    SkipsBlanks(g, t);
  }

  lemma ArgReads(g: string, ps: seq<Part>, s: string, required: bool, name: bool)
    requires Blanks(g) && Starts(ps) && Stops(s)
    requires Meaning(ps) == "" ==> !required
    requires name && Meaning(ps) != "" ==> ValidName(Meaning(ps))
    ensures Argument(g + (Spelling(ps) + s), required, name) == Arg(Meaning(ps), Behind(s, g == "" && Naked(ps)))
  {
    SpellingHead(ps, s);
    WordReads(ps, s, g == "");
    ArgWord(g, Spelling(ps) + s, required, name);
  }

  /** What can come at the end of a command: nothing, a comment, or a semicolon and more. */
  predicate Closes(e: string) { e == "" || e[0] == '#' || e[0] == ';' }

  /** What is read next. */
  function Beyond(e: string): string { if e != "" && e[0] == ';' then e[1..] else "" }

  lemma EndReads(g: string, e: string)
    requires Blanks(g) && Closes(e)
    ensures SkipBlank(g + e) == Some(e) && Argument(e, false, false) == Arg("", Beyond(e))
  {
    SkipsBlanks(g, e);
    SkipsBlanks("", e);
    assert "" + e == e && e[..0] == "";
  }

  /** What is left behind the last word of a command and blanks. */
  lemma LastReads(g: string, e: string, tight: bool)
    requires Blanks(g) && Closes(e)
    ensures Stops(g + e)
    ensures var u := SkipBlank(Behind(g + e, tight));
            u.Some? && Argument(u.value, false, false) == Arg("", if g == "" && tight then "" else Beyond(e))
  {
    if g == "" {
      assert g + e == e;
      EndReads("", e);
      EndReads("", "");
      assert "" + e == e && "" + "" == "";
    } else {
      assert g[0] in g && (g + e)[1..] == g[1..] + e && forall c <- g[1..] :: c in g;
      EndReads(g[1..], e);
    }
  }

  // ---- commands ----

  lemma {:induction false} DropsBlanks(g: string, s: string)
    requires Blanks(g) && (s == "" || !Blank(s[0]))
    ensures DropBlanks(g + s) == s
  {
    if g == "" {
      assert g + s == s;
    } else {
      assert g[0] in g && (g + s)[1..] == g[1..] + s && forall c <- g[1..] :: c in g;
      DropsBlanks(g[1..], s);
    }
  }

  /** A line of blanks and perhaps a comment says nothing. */
  lemma CommentReads(g: string, c: string, strict: bool)
    requires Blanks(g) && (c == "" || c[0] == '#')
    ensures ReadLine(g + c, strict) == Reading([], true)
  {
    DropsBlanks(g, c);
  }

  predicate Splits(line: string, word: string, args: string) {
    var t := DropBlanks(line); t != "" && Token(t) == word && |word| < |t| && t[|word| + 1..] == args
  }

  /** Where a command ends. */
  lemma CommandParts(g: string, word: string, b: char, args: string)
    requires Blanks(g) && Blank(b) && word != "" && forall c <- word :: !Blank(c)
    ensures Splits(g + (word + ([b] + args)), word, args)
  {
    var t := word + ([b] + args);
    assert t[0] == word[0] && word[0] in word;
    DropsBlanks(g, t);
    TokenBefore(word, [b] + args);
  }

  lemma SameReads(g: string, short: string, word: string, b: char, args: string, strict: bool)
    requires Blanks(g) && Blank(b) && Known(short) && Known(word) && short[0] == word[0]
    ensures ReadLine(g + (short + ([b] + args)), strict) == ReadLine(g + (word + ([b] + args)), strict)
  {
    KnownUnbroken(short);
    KnownUnbroken(word);
    CommandParts(g, short, b, args);
    CommandParts(g, word, b, args);
    SameSteps(g + (short + ([b] + args)), g + (word + ([b] + args)), short, word, args, strict);
  }

  lemma SameSteps(l: string, l': string, word: string, word': string, args: string, strict: bool)
    requires Splits(l, word, args) && Splits(l', word', args) && Known(word) && Known(word') && word[0] == word'[0]
    ensures ReadLine(l, strict) == ReadLine(l', strict)
  {
    assert FirstStatement(l, strict) == FirstStatement(l', strict);
  }

  lemma KnownUnbroken(word: string)
    requires Known(word)
    ensures word != "" && word[0] != '#' && forall c <- word :: !Blank(c)
  {
  }

  /** A command can be shortened to its first letter. */
  lemma ShortReads(g: string, b: char, args: string, strict: bool)
    requires Blanks(g) && Blank(b)
    ensures var s := [b] + args;
            && ReadLine(g + ("p" + s), strict) == ReadLine(g + ("package" + s), strict)
            && ReadLine(g + ("c" + s), strict) == ReadLine(g + ("config" + s), strict)
            && ReadLine(g + ("o" + s), strict) == ReadLine(g + ("option" + s), strict)
            && ReadLine(g + ("l" + s), strict) == ReadLine(g + ("list" + s), strict)
  {
    SameReads(g, "p", "package", b, args, strict);
    SameReads(g, "c", "config", b, args, strict);
    SameReads(g, "o", "option", b, args, strict);
    SameReads(g, "l", "list", b, args, strict);
  }

  /** Anything else is an error. */
  lemma UnknownFails(g: string, word: string, b: char, args: string, strict: bool)
    requires Blanks(g) && Blank(b) && word != "" && word[0] != '#' && forall c <- word :: !Blank(c)
    requires word !in {"p", "package", "c", "config", "o", "option", "l", "list"}
    ensures ReadLine(g + (word + ([b] + args)), strict) == Reading([], false)
  {
    CommandParts(g, word, b, args);
  }

  // ---- whole commands ----

  /** Two arguments as they are written: white space, a word, white space and a word, and what closes the command. */
  function Written(b: string, ps: seq<Part>, g: string, qs: seq<Part>, e: string): string {
    b + (Spelling(ps) + (g + (Spelling(qs) + e)))
  }

  lemma BlanksRest(g: string)
    requires Blanks(g) && g != ""
    ensures Blanks(g[1..]) && Blank(g[0])
  {
    assert g[0] in g && forall c <- g[1..] :: c in g;
  }

  lemma Led(b: string, t: string)
    requires Blanks(b) && b != ""
    ensures Blanks(b[1..]) && Blank(b[0]) && b + t == [b[0]] + (b[1..] + t)
  {
    BlanksRest(b);
  }

  lemma OneTaken(g: string, s: string)
    requires g != "" && Blank(g[0])
    ensures Stops(g + s) && forall tight :: Behind(g + s, tight) == g[1..] + s
  {
    assert (g + s)[0] == g[0] && (g + s)[1..] == g[1..] + s;
  }

  lemma OthersReads(g: string, qs: seq<Part>, h: string, e: string, first: string, name2: bool, strict: bool)
    requires Blanks(g) && Blanks(h) && Starts(qs) && Closes(e)
    requires name2 && Meaning(qs) != "" ==> ValidName(Meaning(qs))
    ensures Others(g + (Spelling(qs) + (h + e)), first, name2, strict)
         == Pair(first, Meaning(qs), if h == "" && g == "" && Naked(qs) then "" else Beyond(e))
  {
    LastReads(h, e, g == "" && Naked(qs));
    ArgReads(g, qs, h + e, false, name2);
  }

  lemma PairReads(b: string, ps: seq<Part>, g: string, qs: seq<Part>, h: string, e: string, name1: bool, name2: bool,
      strict: bool)
    requires Blanks(b) && Blanks(g) && Blanks(h) && g != "" && Starts(ps) && Starts(qs) && Closes(e)
    requires Meaning(ps) != "" && (name1 ==> ValidName(Meaning(ps)))
    requires name2 && Meaning(qs) != "" ==> ValidName(Meaning(qs))
    ensures Arguments(Written(b, ps, g, qs, h + e), name1, name2, strict)
         == Pair(Meaning(ps), Meaning(qs), if h == "" && |g| == 1 && Naked(qs) then "" else Beyond(e))
  {
    BlanksRest(g);
    var s := Spelling(qs) + (h + e);
    OneTaken(g, s);
    ArgReads(b, ps, g + s, true, name1);
    OthersReads(g[1..], qs, h, e, Meaning(ps), name2, strict);
  }

  /** One argument, and nothing behind it but a comment. */
  lemma AloneReads(b: string, ps: seq<Part>, h: string, e: string, name1: bool, name2: bool, strict: bool)
    requires Blanks(b) && Blanks(h) && Starts(ps) && (e == "" || e[0] == '#')
    requires Meaning(ps) != "" && (name1 ==> ValidName(Meaning(ps)))
    ensures Arguments(b + (Spelling(ps) + (h + e)), name1, name2, strict) == Pair(Meaning(ps), "", "")
  {
    var tight := b == "" && Naked(ps);
    LastReads(h, e, tight);
    ArgReads(b, ps, h + e, true, name1);
    NothingReads(h, e, tight, Meaning(ps), name2, strict);
  }

  lemma NothingReads(h: string, e: string, tight: bool, first: string, name2: bool, strict: bool)
    requires Blanks(h) && (e == "" || e[0] == '#')
    ensures Others(Behind(h + e, tight), first, name2, strict) == Pair(first, "", "")
  {
    var rest := Behind(h + e, tight);
    if h == "" {
      assert h + e == e;
      assert rest == "";
    } else {
      BlanksRest(h);
      assert (h + e)[0] == h[0] && rest == h[1..] + e;
      SkipsBlanks(h[1..], e);
    }
    assert Argument(rest, false, name2) == Arg("", "");
    assert SkipBlank("") == Some("");
  }

  /** A whole option: the words stand for what they mean, and reading goes on behind a semicolon. */
  lemma OptionReads(g: string, word: string, b: string, ps: seq<Part>, f: string, qs: seq<Part>, h: string, e: string,
      strict: bool)
    requires word in {"o", "option", "l", "list"} && Blanks(g) && Blanks(b) && b != ""
    requires Blanks(f) && Blanks(h) && f != "" && Starts(ps) && Starts(qs) && Closes(e) && ValidName(Meaning(ps))
    ensures var c := if word[0] == 'o' then Option(Meaning(ps), Meaning(qs)) else List(Meaning(ps), Meaning(qs));
            ReadLine(g + (word + Written(b, ps, f, qs, h + e)), strict)
            == ReadLine(if h == "" && |f| == 1 && Naked(qs) then "" else Beyond(e), strict).After(c)
  {
    CommandReads(g, word, b, ps, f, qs, h, e, strict);
  }

  /** A section with its type and its name. */
  lemma ConfigReads(g: string, word: string, b: string, ps: seq<Part>, f: string, qs: seq<Part>, h: string, e: string,
      strict: bool)
    requires word in {"c", "config"} && Blanks(g) && Blanks(b) && b != ""
    requires Blanks(f) && Blanks(h) && f != "" && Starts(ps) && Starts(qs) && Closes(e)
    requires ValidType(Meaning(ps)) && (Meaning(qs) != "" ==> ValidName(Meaning(qs)))
    ensures ReadLine(g + (word + Written(b, ps, f, qs, h + e)), strict)
         == ReadLine(if h == "" && |f| == 1 && Naked(qs) then "" else Beyond(e), strict)
              .After(Config(Meaning(ps), Meaning(qs)))
  {
    CommandReads(g, word, b, ps, f, qs, h, e, strict);
  }

  lemma CommandTakes(g: string, word: string, b: char, args: string, strict: bool)
    requires Blanks(g) && Blank(b) && Known(word) && word[0] != 'p'
    requires var p := Arguments(args, word[0] != 'c', word[0] == 'c', strict);
             p.Pair? && (word[0] == 'c' ==> ValidType(p.first))
    ensures var p := Arguments(args, word[0] != 'c', word[0] == 'c', strict);
            ReadLine(g + (word + ([b] + args)), strict)
            == ReadLine(p.rest, strict).After(Said(word[0], p.first, p.second))
  {
    KnownUnbroken(word);
    CommandParts(g, word, b, args);
    StepTakes(g + (word + ([b] + args)), word, args, strict);
  }

  lemma StepTakes(l: string, word: string, args: string, strict: bool)
    requires Splits(l, word, args) && Known(word) && word[0] != 'p' && word[0] != '#'
    requires var p := Arguments(args, word[0] != 'c', word[0] == 'c', strict);
             p.Pair? && (word[0] == 'c' ==> ValidType(p.first))
    ensures var p := Arguments(args, word[0] != 'c', word[0] == 'c', strict);
            ReadLine(l, strict) == ReadLine(p.rest, strict).After(Said(word[0], p.first, p.second))
  {
    var p := Arguments(args, word[0] != 'c', word[0] == 'c', strict);
    assert FirstStatement(l, strict) == Take(Said(word[0], p.first, p.second), p.rest);
  }

  lemma CommandReads(g: string, word: string, b: string, ps: seq<Part>, f: string, qs: seq<Part>, h: string, e: string,
      strict: bool)
    requires Known(word) && word[0] != 'p' && Blanks(g) && Blanks(b) && b != ""
    requires Blanks(f) && Blanks(h) && f != "" && Starts(ps) && Starts(qs) && Closes(e) && Meaning(ps) != ""
    requires if word[0] == 'c' then ValidType(Meaning(ps)) && (Meaning(qs) != "" ==> ValidName(Meaning(qs)))
             else ValidName(Meaning(ps))
    ensures ReadLine(g + (word + Written(b, ps, f, qs, h + e)), strict)
         == ReadLine(if h == "" && |f| == 1 && Naked(qs) then "" else Beyond(e), strict)
              .After(Said(word[0], Meaning(ps), Meaning(qs)))
  {
    Led(b, Spelling(ps) + (f + (Spelling(qs) + (h + e))));
    PairReads(b[1..], ps, f, qs, h, e, word[0] != 'c', word[0] == 'c', strict);
    CommandTakes(g, word, b[0], Written(b[1..], ps, f, qs, h + e), strict);
  }

  /** A section without a name, or an option without a value. */
  lemma AloneLineReads(g: string, word: string, b: string, ps: seq<Part>, h: string, e: string, strict: bool)
    requires Known(word) && word[0] != 'p' && Blanks(g) && Blanks(b) && b != ""
    requires Blanks(h) && Starts(ps) && (e == "" || e[0] == '#')
    requires if word[0] == 'c' then ValidType(Meaning(ps)) else ValidName(Meaning(ps))
    ensures var w := Meaning(ps);
            ReadLine(g + (word + (b + (Spelling(ps) + (h + e)))), strict)
            == Reading([Said(word[0], w, "")], true)
  {
    var t := Spelling(ps) + (h + e);
    Led(b, t);
    AloneReads(b[1..], ps, h, e, word[0] != 'c', word[0] == 'c', strict);
    CommandTakes(g, word, b[0], b[1..] + t, strict);
    assert ReadLine("", strict) == Reading([], true);
  }

  lemma PackageTakes(g: string, word: string, b: char, args: string, strict: bool)
    requires Blanks(g) && Blank(b) && Known(word) && word[0] == 'p' && PackageArgument(args, strict) == Some("")
    ensures ReadLine(g + (word + ([b] + args)), strict) == Reading([Package], true)
  {
    KnownUnbroken(word);
    CommandParts(g, word, b, args);
    ReadsOne(g + (word + ([b] + args)), Package, strict);
  }

  /** The name of a package says nothing to an import of a single one. */
  lemma PackageReads(g: string, word: string, b: string, ps: seq<Part>, h: string, e: string, strict: bool)
    requires word in {"p", "package"} && Blanks(g) && Blanks(b) && b != ""
    requires Blanks(h) && Starts(ps) && (e == "" || e[0] == '#') && ValidName(Meaning(ps))
    ensures ReadLine(g + (word + (b + (Spelling(ps) + (h + e)))), strict) == Reading([Package], true)
  {
    var t := Spelling(ps) + (h + e);
    Led(b, t);
    LastReads(h, e, b[1..] == "" && Naked(ps));
    ArgReads(b[1..], ps, h + e, true, true);
    PackageTakes(g, word, b[0], b[1..] + t, strict);
  }
}
