/** The loops of file.c: exporting a package to a text, and reading a line buffer in place. */
module UciImport {
  import opened Common
  import opened UciStore
  import opened UciWord
  import opened UciText

  lemma {:induction false} EscapeChunk(a: string, s: string)
    requires '\'' !in a
    ensures Escape(a + s) == a + Escape(s)
  {
    if a == "" {
      assert a + s == s;
    } else {
      assert (a + s)[1..] == a[1..] + s && a[0] in a;
      EscapeChunk(a[1..], s);
      assert [a[0]] + (a[1..] + Escape(s)) == a + Escape(s);
    }
  }

  /** The next quote in str, or its end. */
  method NextQuote(str: string, i: nat) returns (end: nat)
    requires i <= |str|
    ensures i <= end <= |str| && '\'' !in str[i..end] && (end < |str| ==> str[end] == '\'')
  {
    end := i;
    while end < |str| && str[end] != '\''
      invariant i <= end <= |str| && '\'' !in str[i..end]
    {
      end := end + 1;
    }
  }

  /** A piece of a string up to a quote, the quote, and the rest. */
  lemma EscapePart(str: string, i: nat, end: nat)
    requires i <= end <= |str| && '\'' !in str[i..end] && (end < |str| ==> str[end] == '\'')
    ensures Escape(str[i..]) == str[i..end] + if end == |str| then "" else "'\\''" + Escape(str[end + 1..])
  {
    assert str[i..] == str[i..end] + str[end..];
    EscapeChunk(str[i..end], str[end..]);
    assert end < |str| ==> str[end..][1..] == str[end + 1..];
  }

  /** uci_escape: copies up to the next quote, then writes the escaped quote. */
  method EscapeString(str: string) returns (buf: string)
    ensures buf == Escape(str)
  {
    buf := "";
    var i := 0;
    assert str[0..] == str && "" + Escape(str) == Escape(str);
    while true
      invariant i <= |str| && Escape(str) == buf + Escape(str[i..])
      decreases |str| - i
    {
      var end := NextQuote(str, i);
      EscapePart(str, i, end);
      var chunk := str[i..end];
      if end == |str| {
        Associates(buf, chunk, "");
        buf := buf + chunk;
        break;
      }
      Associates(buf, chunk, "'\\''" + Escape(str[end + 1..]));
      Associates(buf + chunk, "'\\''", Escape(str[end + 1..]));
      buf := buf + chunk + "'\\''";
      i := end + 1;
    }
  }

  lemma {:induction false} JoinedSum(a: seq<string>, b: seq<string>)
    ensures Joined(a + b) == Joined(a) + Joined(b)
  {
    if a == [] {
      assert a + b == b;
    } else {
      assert (a + b)[1..] == a[1..] + b;
      JoinedSum(a[1..], b);
    }
  }

  lemma JoinedOne(l: string)
    ensures Joined([l]) == l + "\n"
  {
    assert [l][1..] == [] && Joined([]) == "";
    assert l + "\n" + "" == l + "\n";
  }

  /** The part of uci_export_package that prints one option. */
  method ExportOption(o: Opt) returns (out: string)
    ensures out == Joined(OptLines(o))
  {
    var name := EscapeString(o.name);
    match o.value
    case Text(t) =>
      var value := EscapeString(t);
      out := "\toption " + name + " " + ("'" + value + "'") + "\n";
      JoinedOne(OptionLine(o.name, t));
    case Items(items) =>
      out := "";
      var i := 0;
      while i < |items|
        invariant i <= |items| && Joined(ListLines(o.name, items)) == out + Joined(ListLines(o.name, items[i..]))
      {
        var value := EscapeString(items[i]);
        JoinedOne(ListLine(o.name, items[i]));
        assert items[i..][1..] == items[i + 1..];
        JoinedSum([ListLine(o.name, items[i])], ListLines(o.name, items[i + 1..]));
        out := out + ("\tlist " + name + " " + ("'" + value + "'") + "\n");
        i := i + 1;
      }
  }

  lemma JoinedHead(s: Section)
    ensures Joined(SectionLines(s)) == "\n" + (ConfigLine(s) + "\n") + Joined(OptsLines(s.options))
  {
    JoinedOne("");
    JoinedOne(ConfigLine(s));
    JoinedSum([""], [ConfigLine(s)]);
    assert [""] + [ConfigLine(s)] == ["", ConfigLine(s)] && "" + "\n" == "\n";
    JoinedSum(["", ConfigLine(s)], OptsLines(s.options));
  }

  lemma JoinedOption(os: seq<Opt>, j: nat)
    requires j < |os|
    ensures Joined(OptsLines(os[j..])) == Joined(OptLines(os[j])) + Joined(OptsLines(os[j + 1..]))
  {
    assert os[j..][1..] == os[j + 1..];
    JoinedSum(OptLines(os[j]), OptsLines(os[j + 1..]));
  }

  method ConfigHead(s: Section, names: bool) returns (out: string)
    ensures out == ConfigLine(if names then s.(anonymous := false) else s)
  {
    var kind := EscapeString(s.kind);
    var name := EscapeString(s.name);
    out := "config " + kind + if !s.anonymous || names then " " + ("'" + name + "'") else "";
  }

  /** The part of uci_export_package that prints one section. */
  method ExportSection(s: Section, names: bool) returns (out: string)
    ensures out == Joined(SectionLines(if names then s.(anonymous := false) else s))
  {
    ghost var s' := if names then s.(anonymous := false) else s;
    var head := ConfigHead(s, names);
    out := "\n" + (head + "\n");
    JoinedHead(s');
    var j, os := 0, s.options;
    assert os[0..] == os;
    while j < |os|
      invariant j <= |os| && Joined(SectionLines(s')) == out + Joined(OptsLines(os[j..]))
    {
      var text := ExportOption(os[j]);
      JoinedOption(os, j);
      Associates(out, text, Joined(OptsLines(os[j + 1..])));
      out, j := out + text, j + 1;
    }
  }

  /** uci_export_package */
  method ExportPackage(ss: seq<Section>, header: Maybe<string>, names: bool) returns (out: string)
    ensures out == Exported(ss, header, names)
  {
    out := "";
    ghost var all := Shown(ss, names);
    JoinedSum(HeaderLines(header), PackageLines(all));
    if header.Some? {
      var name := EscapeString(header.value);
      out := "package " + name + "\n";
      JoinedOne("package " + name);
    }
    var k := 0;
    assert all[0..] == all;
    while k < |ss|
      invariant k <= |ss| && Exported(ss, header, names) == out + Joined(PackageLines(all[k..]))
    {
      var text := ExportSection(ss[k], names);
      assert all[k..][1..] == all[k + 1..];
      JoinedSum(SectionLines(all[k]), PackageLines(all[k + 1..]));
      Associates(out, text, Joined(PackageLines(all[k + 1..])));
      out, k := out + text, k + 1;
    }
    JoinedOne("");
    out := out + "\n";
  }

  // ---- reading a line in place ----

  /** The first half of strtok_r. */
  method SkipBlanks(buf: array<char>, i0: nat, ghost n: nat, ghost s: string) returns (i: nat)
    requires Holds(buf, i0, n, s)
    ensures i0 <= i && Holds(buf, i, n, DropBlanks(s))
  {
    i := i0;
    ghost var left := s;
    Next(buf, i, n, left);
    while Blank(buf[i])
      invariant i0 <= i && Holds(buf, i, n, left) && DropBlanks(left) == DropBlanks(s)
      decreases |left|
    {
      Next(buf, i, n, left);
      i, left := i + 1, left[1..];
      Next(buf, i, n, left);
    }
    Next(buf, i, n, left);
  }

  /** The characters up to the first blank are the token. */
  lemma TokenIs(s: string, k: nat)
    requires k <= |s| && (forall i :: 0 <= i < k ==> !Blank(s[i])) && (k < |s| ==> Blank(s[k]))
    ensures Token(s) == s[..k]
  {
    var r := Token(s);
    assert forall i :: 0 <= i < |r| ==> s[i] == r[i] && r[i] in r;
  }

  /** The second half: the token, and the position of the delimiter or NUL behind it. */
  method ScanToken(buf: array<char>, i: nat, ghost n: nat, ghost s: string) returns (word: string, j: nat)
    requires Holds(buf, i, n, s)
    ensures word == Token(s) && i <= j && Holds(buf, j, n, s[|word|..])
  {
    word, j := "", i;
    ghost var k := 0;
    assert s[0..] == s;
    Next(buf, j, n, s);
    while buf[j] != NUL && !Blank(buf[j])
      invariant i <= j && k <= |s| && word == s[..k] && (forall m :: 0 <= m < k ==> !Blank(s[m]))
      invariant Holds(buf, j, n, s[k..])
      decreases |s| - k
    {
      Next(buf, j, n, s[k..]);
      assert s[k..][0] == s[k] && s[k..][1..] == s[k + 1..];
      word := word + [buf[j]];
      j, k := j + 1, k + 1;
    }
    Next(buf, j, n, s[k..]);
    TokenIs(s, k);
  }

  /** strtok_r ends the token with a NUL. */
  method EndToken(buf: array<char>, j: nat, ghost n: nat, ghost s: string)
    requires Holds(buf, j, n, s) && s != ""
    modifies buf
    ensures Holds(buf, j + 1, n, s[1..])
  {
    Next(buf, j, n, s);
    buf[j] := NUL;
  }

  /** The argument of uci_parse_package. */
  method ParsePackage(buf: array<char>, v: nat, strict: bool, ghost n0: nat, ghost s: string)
    returns (i: nat, ok: bool, ghost n: nat)
    requires Holds(buf, v, n0, s)
    modifies buf
    ensures var p := PackageArgument(s, strict);
            ok == p.Some? && (ok ==> Holds(buf, i, n, p.value))
  {
    var name;
    i, name, ok, n := NextArg(buf, v, true, true, n0, s);
    if ok {
      var v1 := i;
      i, ok, n := AssertEol(buf, v, v, v1, strict, n, Argument(s, true, true).rest, name, name);
    }
  }

  /** One round of uci_parse_line. */
  method ParseStatement(buf: array<char>, i0: nat, strict: bool, ghost n0: nat, ghost s: string)
    returns (step: Step, i: nat, ghost n: nat)
    requires Holds(buf, i0, n0, s)
    modifies buf
    ensures match FirstStatement(s, strict)
            case End(ok) => step == End(ok)
            case Take(c, rest) => step == Take(c, "") && Holds(buf, i, n, rest)
  {
    n := n0;
    i := SkipBlanks(buf, i0, n, s);
    ghost var t := DropBlanks(s);
    Next(buf, i, n, t);
    if buf[i] == NUL {
      return End(true), i, n;
    }
    var word, j := ScanToken(buf, i, n, t);
    if word[0] == '#' {
      return End(true), i, n;
    }
    Next(buf, j, n, t[|word|..]);
    if buf[j] == NUL || !Known(word) {
      return End(false), i, n;
    }
    EndToken(buf, j, n, t[|word|..]);
    assert t[|word|..][1..] == t[|word| + 1..];
    step, i, n := ParseCommand(buf, j + 1, word, strict, n, t[|word| + 1..]);
  }

  /** The arguments of a known command. */
  method ParseCommand(buf: array<char>, v: nat, word: string, strict: bool, ghost n0: nat, ghost args: string)
    returns (step: Step, i: nat, ghost n: nat)
    requires Holds(buf, v, n0, args) && word != ""
    modifies buf
    ensures var q, p := PackageArgument(args, strict), Arguments(args, word[0] != 'c', word[0] == 'c', strict);
            if word[0] == 'p' then
              if q.None? then step == End(false) else step == Take(Package, "") && Holds(buf, i, n, q.value)
            else if p.NoPair? || (word[0] == 'c' && !ValidType(p.first)) then step == End(false)
            else step == Take(if word[0] == 'c' then Config(p.first, p.second)
                              else if word[0] == 'o' then Option(p.first, p.second)
                              else List(p.first, p.second), "") && Holds(buf, i, n, p.rest)
  {
    var ok;
    if word[0] == 'p' {
      i, ok, n := ParsePackage(buf, v, strict, n0, args);
      return if ok then Take(Package, "") else End(false), i, n;
    }
    var first, second;
    i, first, second, ok, n := ParseArguments(buf, v, word[0] != 'c', word[0] == 'c', strict, n0, args);
    if !ok || (word[0] == 'c' && !ValidType(first)) {
      return End(false), i, n;
    }
    step := Take(if word[0] == 'c' then Config(first, second)
                 else if word[0] == 'o' then Option(first, second)
                 else List(first, second), "");
  }

  lemma ReadOn(s: string, strict: bool, cs: seq<Statement>)
    ensures var f, r := FirstStatement(s, strict), ReadLine(s, strict);
            f.Take? ==>
              && cs + r.statements == cs + [f.statement] + ReadLine(f.rest, strict).statements
              && r.ok == ReadLine(f.rest, strict).ok
  {
    match FirstStatement(s, strict)
    case End(_) =>
    case Take(c, rest) => Associates(cs, [c], ReadLine(rest, strict).statements);
  }

  /** uci_parse_line on the line buffer. */
  method ParseLine(buf: array<char>, strict: bool, ghost n0: nat, ghost s: string)
    returns (cs: seq<Statement>, ok: bool)
    requires Holds(buf, 0, n0, s)
    modifies buf
    ensures Reading(cs, ok) == ReadLine(s, strict)
  {
    cs := [];
    var i: nat := 0;
    ghost var n, left := n0, s;
    while true
      invariant Holds(buf, i, n, left)
      invariant ReadLine(s, strict) == Reading(cs + ReadLine(left, strict).statements, ReadLine(left, strict).ok)
      decreases |left|
    {
      var step;
      ReadOn(left, strict, cs);
      step, i, n := ParseStatement(buf, i, strict, n, left);
      if step.End? {
        return cs, step.ok;
      }
      cs, left := cs + [step.statement], FirstStatement(left, strict).rest;
    }
  }
}
