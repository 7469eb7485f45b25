/** The argument parser of libuci, which writes each argument over the line it reads (file.c). */
module UciWord {
  import opened Common
  import opened UciStore

  const NUL := '\0'

  /** What parsing finds: a word and the input after it, an open quote, or a backslash at the end of the line. */
  datatype Parsed = Parsed(word: string, rest: string) | Unterminated | Continued
  {
    function After(w: string): Parsed { if Parsed? then Parsed(w + word, rest) else this }
  }

  lemma AfterTwice(r: Parsed, v: string, w: string)
    ensures r.After(v).After(w) == r.After(w + v)
  {
    if r.Parsed? {
      assert w + (v + r.word) == w + v + r.word;
    }
  }

  /** The rest of a single-quoted string. */
  function Single(s: string): (r: Parsed)
    ensures r.Parsed? ==> |r.word| + |r.rest| < |s|
  {
    if s == "" then Unterminated
    else if s[0] == '\'' then Parsed("", s[1..])
    else Single(s[1..]).After([s[0]])
  }

  /** The rest of a double-quoted string, in which a backslash makes the next character plain. */
  function Double(s: string): (r: Parsed)
    ensures r.Parsed? ==> |r.word| + |r.rest| < |s|
  {
    if s == "" then Unterminated
    else if s[0] == '"' then Parsed("", s[1..])
    else if s[0] != '\\' then Double(s[1..]).After([s[0]])
    else if |s| == 1 then Continued
    else Double(s[2..]).After([s[1]])
  }

  /** The first piece of a word: quoted, escaped or one plain character. */
  function Piece(s: string): (r: Parsed)
    requires s != ""
    ensures r.Parsed? ==> |r.word| + |r.rest| <= |s| && |r.rest| < |s|
  {
    if s[0] == '\'' then Single(s[1..])
    else if s[0] == '"' then Double(s[1..])
    else if s[0] != '\\' then Parsed([s[0]], s[1..])
    else if |s| == 1 then Continued
    else Parsed([s[1]], s[2..])
  }

  predicate Special(c: char) { c == '\'' || c == '"' || c == '\\' }

  /** A word made of such pieces. It ends at white space, a comment or a semicolon; a semicolon
      is lost if the word is written right up to it (tight). */
  function Word(s: string, tight: bool): (r: Parsed)
    ensures r.Parsed? ==> |r.word| + |r.rest| <= |s|
    decreases |s|
  {
    if s == "" || s[0] == '#' then Parsed("", "")
    else if s[0] == ';' then Parsed("", if tight then "" else s)
    else
      var first := Piece(s);
      if !first.Parsed? || first.rest == "" then first
      else if Space(first.rest[0]) then Parsed(first.word, first.rest[1..])
      else Word(first.rest, tight && !Special(s[0])).After(first.word)
  }

  // ---- the same in place ----

  /** The input left from position i to the NUL at n is s. */
  ghost predicate Holds(buf: array<char>, i: nat, n: nat, s: string)
    reads buf
  {
    i <= n < buf.Length && buf[i..n] == s && buf[n] == NUL && NUL !in s
  }

  /** The word w has been written from position t0 to t. */
  ghost predicate Written(buf: array<char>, t0: nat, t: nat, w: string)
    reads buf
  {
    t0 <= t <= buf.Length && buf[t0..t] == w
  }

  /** Nothing before t0 has changed since the buffer held `was`. */
  ghost predicate Kept(buf: array<char>, t0: nat, was: seq<char>)
    reads buf
  {
    t0 <= buf.Length == |was| && buf[..t0] == was[..t0]
  }

  lemma Next(buf: array<char>, i: nat, n: nat, s: string)
    requires Holds(buf, i, n, s)
    ensures buf[i] == NUL <==> s == ""
    ensures s != "" ==> buf[i] == s[0] && Holds(buf, i + 1, n, s[1..])
  {
    if s != "" {
      assert s[0] == buf[i..n][0] && s[1..] == buf[i + 1..n];
    }
  }

  /** Ends the word written so far. */
  method Terminate(buf: array<char>, t0: nat, t: nat, i: nat, ghost n: nat, ghost w: string, ghost rest: string,
      ghost was: string)
    requires t < i && Written(buf, t0, t, w) && Holds(buf, i, n, rest) && Kept(buf, t0, was)
    modifies buf
    ensures Written(buf, t0, t, w) && Holds(buf, i, n, rest) && Kept(buf, t0, was) && buf[t] == NUL
  {
    buf[t] := NUL;
  }

  /** addc */
  method AddChar(buf: array<char>, t0: nat, t: nat, i: nat, ghost n: nat, ghost w: string, ghost left: string,
      ghost was: string)
    requires t <= i && Written(buf, t0, t, w) && Holds(buf, i, n, left) && left != "" && Kept(buf, t0, was)
    modifies buf
    ensures Written(buf, t0, t + 1, w + [left[0]]) && Holds(buf, i + 1, n, left[1..]) && Kept(buf, t0, was)
  {
    Next(buf, i, n, left);
    buf[t] := buf[i];
    assert buf[t0..t + 1] == buf[t0..t] + [buf[t]];
  }

  /** How a step ended; the two failures are those of Parsed. */
  datatype Ending = Fine | OpenQuote | OpenLine

  function EndingOf(r: Parsed): Ending {
    match r
    case Parsed(_, _) => Fine
    case Unterminated => OpenQuote
    case Continued => OpenLine
  }

  /** Where parsing r leaves the cursors: the word from t0 to t and the rest from i to n. */
  ghost predicate Left(buf: array<char>, r: Parsed, t0: nat, t: nat, i: nat, n: nat)
    reads buf
  {
    r.Parsed? ==> Written(buf, t0, t, r.word) && Holds(buf, i, n, r.rest)
  }

  /** parse_single_quote */
  method ParseSingle(buf: array<char>, i0: nat, t0: nat, ghost n: nat, ghost s: string)
    returns (i: nat, t: nat, e: Ending)
    requires t0 <= i0 && Holds(buf, i0, n, s) && s != "" && s[0] == '\''
    modifies buf
    ensures var r := Single(s[1..]);
            e == EndingOf(r) && Kept(buf, t0, old(buf[..])) && Left(buf, r, t0, t, i, n) && t < i
  {
    Next(buf, i0, n, s);
    i, t := i0 + 1, t0;
    ghost var w, left := "", s[1..];
    while buf[i] != NUL
      invariant t0 <= t < i && Written(buf, t0, t, w) && Holds(buf, i, n, left)
      invariant Kept(buf, t0, old(buf[..])) && Single(s[1..]) == Single(left).After(w)
      decreases |left|
    {
      Next(buf, i, n, left);
      if buf[i] == '\'' {
        Terminate(buf, t0, t, i + 1, n, w, left[1..], old(buf[..]));
        return i + 1, t, Fine;
      }
      AddChar(buf, t0, t, i, n, w, left, old(buf[..]));
      AfterTwice(Single(left[1..]), [left[0]], w);
      w, left := w + [left[0]], left[1..];
      i, t := i + 1, t + 1;
    }
    Next(buf, i, n, left);
    return i, t, OpenQuote;
  }

  /** A character inside double quotes, perhaps behind a backslash, goes to the word; a backslash may end the line. */
  method AddQuoted(buf: array<char>, t0: nat, t: nat, i0: nat, ghost n: nat, ghost w: string, ghost s: string,
      ghost was: string)
    returns (i: nat, open: bool, ghost w': string, ghost left: string)
    requires t < i0 && Written(buf, t0, t, w) && Holds(buf, i0, n, s) && s != "" && s[0] != '"' && Kept(buf, t0, was)
    modifies buf
    ensures Kept(buf, t0, was) && t < i && (open ==> Double(s) == Continued)
    ensures !open ==> t + 1 < i && |left| < |s| && Written(buf, t0, t + 1, w') && Holds(buf, i, n, left)
    ensures !open ==> Double(s).After(w) == Double(left).After(w')
  {
    Next(buf, i0, n, s);
    i, left, w' := i0, s, w;
    if buf[i] == '\\' {
      i, left := i + 1, left[1..];
      Next(buf, i, n, left);
      if buf[i] == NUL {
        return i, true, w', left;
      }
    }
    AddChar(buf, t0, t, i, n, w, left, was);
    AfterTwice(Double(left[1..]), [left[0]], w);
    return i + 1, false, w + [left[0]], left[1..];
  }

  /** parse_double_quote */
  method ParseDouble(buf: array<char>, i0: nat, t0: nat, ghost n: nat, ghost s: string)
    returns (i: nat, t: nat, e: Ending)
    requires t0 <= i0 && Holds(buf, i0, n, s) && s != "" && s[0] == '"'
    modifies buf
    ensures var r := Double(s[1..]);
            e == EndingOf(r) && Kept(buf, t0, old(buf[..])) && Left(buf, r, t0, t, i, n) && t < i
  {
    Next(buf, i0, n, s);
    i, t := i0 + 1, t0;
    ghost var w, left, all := "", s[1..], Double(s[1..]);
    while buf[i] != NUL
      invariant t0 <= t < i && Written(buf, t0, t, w) && Holds(buf, i, n, left)
      invariant Kept(buf, t0, old(buf[..])) && all == Double(left).After(w)
      decreases |left|
    {
      Next(buf, i, n, left);
      if buf[i] == '"' {
        Terminate(buf, t0, t, i + 1, n, w, left[1..], old(buf[..]));
        return i + 1, t, Fine;
      }
      var open;
      i, open, w, left := AddQuoted(buf, t0, t, i, n, w, left, old(buf[..]));
      if open {
        return i, t, OpenLine;
      }
      t := t + 1;
    }
    Next(buf, i, n, left);
    return i, t, OpenQuote;
  }

  /** One round of the loop in parse_str, when it does not stop. */
  method ParsePiece(buf: array<char>, i0: nat, t0: nat, ghost n: nat, ghost s: string)
    returns (i: nat, t: nat, e: Ending)
    requires t0 <= i0 && Holds(buf, i0, n, s) && s != ""
    modifies buf
    ensures e == EndingOf(Piece(s)) && Kept(buf, t0, old(buf[..])) && Left(buf, Piece(s), t0, t, i, n)
    ensures if Special(s[0]) then e.Fine? ==> t < i else i == i0 + 1 && t == t0 + 1
  {
    Next(buf, i0, n, s);
    if buf[i0] == '\'' {
      i, t, e := ParseSingle(buf, i0, t0, n, s);
    } else if buf[i0] == '"' {
      i, t, e := ParseDouble(buf, i0, t0, n, s);
    } else {
      i, t, e := i0, t0, Fine;
      ghost var left := s;
      if buf[i] == '\\' {
        i, left := i + 1, s[1..];
        Next(buf, i, n, left);
        if buf[i] == NUL {
          return i, t, OpenLine;
        }
      }
      AddChar(buf, t0, t, i, n, "", left, buf[..]);
      i, t := i + 1, t + 1;
    }
  }

  /** A word grows by a piece written after it. */
  lemma Longer(buf: array<char>, was: seq<char>, t0: nat, t: nat, t1: nat, w: string, v: string)
    requires t0 <= t && Kept(buf, t, was) && was[t0..t] == w && Written(buf, t, t1, v)
    ensures Written(buf, t0, t1, w + v)
  {
    assert buf[t0..t] == buf[..t][t0..t] == was[..t][t0..t] == was[t0..t];
    assert buf[t0..t1] == buf[t0..t] + buf[t..t1];
  }

  /** The end of parse_str: the white space after the word is skipped and the word ended. */
  method FinishWord(buf: array<char>, t0: nat, t: nat, i0: nat, skip: bool, ghost n0: nat, ghost w: string,
      ghost left: string)
    returns (i: nat, ghost n: nat)
    requires t0 <= t <= i0 && Written(buf, t0, t, w) && Holds(buf, i0, n0, left)
    modifies buf
    ensures Written(buf, t0, t, w) && Kept(buf, t0, old(buf[..])) && t <= i && buf[t] == NUL
    ensures Holds(buf, i, n, if left == "" then "" else if skip then left[1..] else if t == i0 then "" else left)
  {
    Next(buf, i0, n0, left);
    i, n := i0, n0;
    if buf[i] != NUL && skip {
      i := i + 1;
    }
    if t == i {
      n := i;
    }
    buf[t] := NUL;
    assert buf[i..i] == "";
  }

  method AddPiece(buf: array<char>, t0: nat, t: nat, i: nat, ghost n: nat, ghost w: string, ghost left: string)
    returns (i': nat, t': nat, e: Ending)
    requires t0 <= t <= i && Written(buf, t0, t, w) && Holds(buf, i, n, left) && left != ""
    modifies buf
    ensures e == EndingOf(Piece(left)) && Kept(buf, t0, old(buf[..]))
    ensures e.Fine? ==> Written(buf, t0, t', w + Piece(left).word) && Holds(buf, i', n, Piece(left).rest) && t' <= i'
    ensures e.Fine? ==> (t' == i' <==> t == i && !Special(left[0]))
  {
    ghost var before := buf[..];
    i', t', e := ParsePiece(buf, i, t, n, left);
    if e.Fine? {
      Longer(buf, before, t0, t, t', w, Piece(left).word);
    }
    assert buf[..t0] == buf[..t][..t0];
  }

  /** What a round of the loop does to the rest of the word. */
  lemma WordStep(left: string, tight: bool, w: string)
    requires left != "" && left[0] != '#' && left[0] != ';'
    ensures var first, r := Piece(left), Word(left, tight).After(w);
            if !first.Parsed? then r == first
            else if first.rest == "" then r == Parsed(w + first.word, "")
            else if Space(first.rest[0]) then r == Parsed(w + first.word, first.rest[1..])
            else r == Word(first.rest, tight && !Special(left[0])).After(w + first.word)
  {
    var first := Piece(left);
    if first.Parsed? && first.rest != "" {
      AfterTwice(Word(first.rest, tight && !Special(left[0])), first.word, w);
    }
  }

  /** The rest of the input after a stop: what was skipped or overwritten is gone. */
  function Remains(left: string, skip: bool, tight: bool): string {
    if left == "" then "" else if skip then left[1..] else if tight then "" else left
  }

  /** parse_str: on success the word stands at t0 with a NUL after it, no further than the unread rest at i. */
  method ParseWord(buf: array<char>, i0: nat, t0: nat, ghost n0: nat, ghost s: string)
    returns (i: nat, t: nat, e: Ending, ghost n: nat)
    requires t0 <= i0 && Holds(buf, i0, n0, s)
    modifies buf
    ensures var r := Word(s, t0 == i0);
            && e == EndingOf(r) && Kept(buf, t0, old(buf[..])) && Left(buf, r, t0, t, i, n)
            && (e.Fine? ==> t <= i && buf[t] == NUL)
  {
    i, t, e, n := i0, t0, Fine, n0;
    var skip, more := true, true;
    ghost var w, left, r := "", s, Word(s, t0 == i0);
    while more
      invariant t0 <= t <= i && e == Fine && Written(buf, t0, t, w) && Holds(buf, i, n, left)
      invariant Kept(buf, t0, old(buf[..]))
      invariant more ==> skip && r == Word(left, t == i).After(w)
      invariant !more ==> r == Parsed(w, Remains(left, skip, t == i))
      decreases more, |left|
    {
      Next(buf, i, n, left);
      if buf[i] == NUL {
        more := false;
      } else if buf[i] == '#' {
        n := Cut(buf, t0, t, i, w);
        left, more := "", false;
      } else if buf[i] == ';' {
        skip, more := false, false;
      } else {
        WordStep(left, t == i, w);
        ghost var piece := Piece(left);
        i, t, e := AddPiece(buf, t0, t, i, n, w, left);
        if e != Fine {
          return;
        }
        w, left := w + piece.word, piece.rest;
        Next(buf, i, n, left);
        more := buf[i] != NUL && !Space(buf[i]);
      }
    }
    i, n := FinishWord(buf, t0, t, i, skip, n, w, left);
  }

  /** Cuts a comment off. */
  method Cut(buf: array<char>, t0: nat, t: nat, i: nat, ghost w: string) returns (ghost n: nat)
    requires t0 <= t <= i < buf.Length && Written(buf, t0, t, w)
    modifies buf
    ensures Written(buf, t0, t, w) && Holds(buf, i, n, "") && Kept(buf, t0, old(buf[..]))
  {
    buf[i] := NUL;
    n := i;
  }

  // ---- next_arg ----

  /** skip_whitespace: a backslash in front of a word is dropped; None if it ends the line. */
  function SkipBlank(s: string): (r: Maybe<string>)
    ensures r.Some? ==> |r.value| <= |s|
  {
    if s == "" then Some(s)
    else if Space(s[0]) then SkipBlank(s[1..])
    else if s[0] != '\\' then Some(s)
    else if |s| == 1 then None
    else Some(s[1..])
  }

  /** What next_arg finds: the word or an error. */
  datatype Arg = Arg(word: string, rest: string) | Bad

  function Checked(r: Parsed, required: bool, name: bool): Arg {
    if !r.Parsed? then Bad
    else if r.word == "" then (if required then Bad else Arg("", r.rest))
    else if name && !ValidName(r.word) then Bad
    else Arg(r.word, r.rest)
  }

  /** Before a semicolon there is no word, or only the white space that was skipped. */
  function Argument(s: string, required: bool, name: bool): (a: Arg)
    ensures a.Arg? ==> |a.rest| <= |s|
  {
    var u := SkipBlank(s);
    if u.None? then Bad
    else
      var k := |s| - |u.value|;
      Checked(if u.value != "" && u.value[0] == ';' then Parsed(s[..k], u.value[1..]) else Word(u.value, k == 0),
              required, name)
  }

  /** The NUL-terminated string w stands at position v. */
  ghost predicate Standing(buf: array<char>, v: nat, w: string)
    reads buf
  {
    v + |w| < buf.Length && buf[v..v + |w|] == w && buf[v + |w|] == NUL && NUL !in w
  }

  /** skip_whitespace */
  method SkipWhitespace(buf: array<char>, i0: nat, ghost n: nat, ghost s: string) returns (i: nat, ok: bool)
    requires Holds(buf, i0, n, s)
    ensures ok <==> SkipBlank(s).Some?
    ensures ok ==> Holds(buf, i, n, SkipBlank(s).value) && i == i0 + (|s| - |SkipBlank(s).value|)
  {
    i := i0;
    ghost var left := s;
    Next(buf, i, n, left);
    while buf[i] != NUL && Space(buf[i])
      invariant Holds(buf, i, n, left) && SkipBlank(left) == SkipBlank(s) && i == i0 + (|s| - |left|) && |left| <= |s|
      decreases |left|
    {
      Next(buf, i, n, left);
      i, left := i + 1, left[1..];
    }
    Next(buf, i, n, left);
    if buf[i] == '\\' {
      i, left := i + 1, left[1..];
      Next(buf, i, n, left);
      return i, buf[i] != NUL;
    }
    return i, true;
  }

  /** A string in front of a semicolon stands where it was read. */
  method CutHere(buf: array<char>, v: nat, i: nat, ghost n: nat, ghost s: string)
    requires Holds(buf, v, n, s) && v <= i < n
    modifies buf
    ensures Standing(buf, v, s[..i - v]) && Holds(buf, i + 1, n, s[i - v + 1..]) && Kept(buf, v, old(buf[..]))
  {
    assert s[..i - v] == buf[v..i] && s[i - v + 1..] == buf[i + 1..n];
    assert NUL !in s[..i - v] && NUL !in s[i - v + 1..];
    buf[i] := NUL;
    assert buf[v..v + (i - v)] == s[..i - v];
  }

  lemma WrittenStands(buf: array<char>, v: nat, t: nat, w: string)
    requires Written(buf, v, t, w) && t < buf.Length && buf[t] == NUL && NUL !in w
    ensures Standing(buf, v, w) && t == v + |w|
  {
    assert |buf[v..t]| == t - v;
  }

  lemma {:induction false} SingleClean(s: string, c: char)
    requires c !in s
    ensures var r := Single(s); r.Parsed? ==> c !in r.word && c !in r.rest
  {
    if s != "" && s[0] != '\'' {
      SingleClean(s[1..], c);
    }
  }

  lemma {:induction false} DoubleClean(s: string, c: char)
    requires c !in s
    ensures var r := Double(s); r.Parsed? ==> c !in r.word && c !in r.rest
    decreases |s|
  {
    if s != "" && s[0] != '"' {
      if s[0] != '\\' {
        DoubleClean(s[1..], c);
      } else if |s| > 1 {
        DoubleClean(s[2..], c);
      }
    }
  }

  /** A word holds no character that its line does not hold, no NUL and no line end. */
  lemma {:induction false} WordClean(s: string, tight: bool, c: char)
    requires c !in s
    ensures var r := Word(s, tight); r.Parsed? ==> c !in r.word && c !in r.rest
    decreases |s|
  {
    if s != "" && s[0] != '#' && s[0] != ';' {
      SingleClean(s[1..], c);
      DoubleClean(s[1..], c);
      var first := Piece(s);
      if first.Parsed? && first.rest != "" && !Space(first.rest[0]) {
        WordClean(first.rest, tight && !Special(s[0]), c);
      }
    }
  }

  method ReadString(buf: array<char>, v: nat, ghost w: string) returns (r: string)
    requires Standing(buf, v, w)
    ensures r == w
  {
    r := "";
    while buf[v + |r|] != NUL
      invariant |r| <= |w| && r == w[..|r|]
      decreases |w| - |r|
    {
      assert |r| < |w| && buf[v + |r|] == buf[v..v + |w|][|r|];
      r := r + [buf[v + |r|]];
    }
  }

  /** next_arg: the argument stands where the call began to read, and the rest lies behind it. */
  method NextArg(buf: array<char>, v: nat, required: bool, name: bool, ghost n0: nat, ghost s: string)
    returns (i: nat, word: string, ok: bool, ghost n: nat)
    requires Holds(buf, v, n0, s)
    modifies buf
    ensures var a := Argument(s, required, name);
            && ok == a.Arg? && Kept(buf, v, old(buf[..])) && (s == "" ==> buf[v] == NUL)
            && (ok ==> word == a.word && Standing(buf, v, word) && v + |word| <= i && Holds(buf, i, n, a.rest))
  {
    n, word := n0, "";
    i, ok := SkipWhitespace(buf, v, n0, s);
    if !ok {
      return;
    }
    ghost var u := SkipBlank(s).value;
    ghost var k := i - v;
    Next(buf, i, n, u);
    var t: nat, e: Ending;
    if buf[i] == ';' {
      CutHere(buf, v, i, n, s);
      i := i + 1;
      word := ReadString(buf, v, s[..k]);
    } else {
      i, t, e, n := ParseWord(buf, i, v, n, u);
      if e != Fine {
        return i, word, false, n;
      }
      WordClean(u, k == 0, NUL);
      WrittenStands(buf, v, t, Word(u, k == 0).word);
      word := ReadString(buf, v, Word(u, k == 0).word);
    }
    ok := if word == "" then !required else !name || ValidName(word);
  }

  /** A string stays where it is while reading goes on behind it. */
  lemma Stays(buf: array<char>, was: seq<char>, v: nat, w: string, i: nat)
    requires Kept(buf, i, was) && v + |w| <= i < buf.Length && was[v..v + |w|] == w && was[v + |w|] == NUL && NUL !in w
    requires was[i] == NUL ==> buf[i] == NUL
    ensures Standing(buf, v, w)
  {
    assert forall k :: 0 <= k < i ==> buf[k] == buf[..i][k] == was[..i][k] == was[k];
    assert buf[v..v + |w|] == was[v..v + |w|];
  }

  /** next_arg, with a string standing in front. */
  method NextBehind(buf: array<char>, v0: nat, v: nat, required: bool, name: bool, ghost n0: nat, ghost s: string,
      ghost w: string)
    returns (i: nat, word: string, ok: bool, ghost n: nat)
    requires Holds(buf, v, n0, s) && Standing(buf, v0, w) && v0 + |w| <= v
    modifies buf
    ensures var a := Argument(s, required, name);
            && ok == a.Arg? && Standing(buf, v0, w)
            && (ok ==> word == a.word && Standing(buf, v, word) && v + |word| <= i && Holds(buf, i, n, a.rest))
  {
    ghost var was := buf[..];
    Next(buf, v, n0, s);
    i, word, ok, n := NextArg(buf, v, required, name, n0, s);
    Stays(buf, was, v0, w, v);
  }

  // ---- the arguments of a command ----

  datatype Pair = Pair(first: string, second: string, rest: string) | NoPair

  /** A required and an optional argument, then the end of the line (assert_eol). */
  function Arguments(s: string, name1: bool, name2: bool, strict: bool): (p: Pair)
    ensures p.Pair? ==> |p.rest| <= |s|
  {
    var a := Argument(s, true, name1);
    if a.Bad? then NoPair else Others(a.rest, a.word, name2, strict)
  }

  function Others(s: string, first: string, name2: bool, strict: bool): (p: Pair)
    ensures p.Pair? ==> |p.rest| <= |s|
  {
    var b := Argument(s, false, name2);
    if b.Bad? then NoPair
    else
      var u := SkipBlank(b.rest);
      if u.None? then NoPair
      else
        var c := Argument(u.value, false, false);
        if c.Bad? || (strict && c.word != "") then NoPair else Pair(first, b.word, c.rest)
  }

  /** assert_eol, with two strings standing in front. */
  method AssertEol(buf: array<char>, v0: nat, v1: nat, v: nat, strict: bool, ghost n0: nat, ghost s: string,
      ghost w0: string, ghost w1: string)
    returns (i: nat, ok: bool, ghost n: nat)
    requires Holds(buf, v, n0, s) && Standing(buf, v0, w0) && v0 + |w0| <= v && Standing(buf, v1, w1) && v1 + |w1| <= v
    modifies buf
    ensures ok <==> SkipBlank(s).Some?
                    && var c := Argument(SkipBlank(s).value, false, false); c.Arg? && !(strict && c.word != "")
    ensures ok ==> v <= i && Holds(buf, i, n, Argument(SkipBlank(s).value, false, false).rest)
    ensures Standing(buf, v0, w0) && Standing(buf, v1, w1)
  {
    n := n0;
    i, ok := SkipWhitespace(buf, v, n, s);
    if ok {
      ghost var was, j := buf[..], i;
      var extra;
      Next(buf, i, n, SkipBlank(s).value);
      i, extra, ok, n := NextArg(buf, i, false, false, n, SkipBlank(s).value);
      ok := ok && !(strict && extra != "");
      Stays(buf, was, v0, w0, j);
      Stays(buf, was, v1, w1, j);
    }
  }

  /** Both arguments can still be read from the line when its end has been reached. */
  method ParseArguments(buf: array<char>, v: nat, name1: bool, name2: bool, strict: bool, ghost n0: nat,
      ghost s: string)
    returns (i: nat, first: string, second: string, ok: bool, ghost n: nat)
    requires Holds(buf, v, n0, s)
    modifies buf
    ensures var p := Arguments(s, name1, name2, strict);
            ok == p.Pair? && (ok ==> first == p.first && second == p.second && v <= i && Holds(buf, i, n, p.rest))
  {
    var v1, word1;
    first, second := "", "";
    v1, word1, ok, n := NextArg(buf, v, true, name1, n0, s);
    i := v1;
    if ok {
      i, first, second, ok, n := MoreArguments(buf, v, v1, name2, strict, n, Argument(s, true, name1).rest, word1);
    }
  }

  /** What follows the first argument. */
  method MoreArguments(buf: array<char>, v0: nat, v1: nat, name2: bool, strict: bool, ghost n0: nat, ghost s: string,
      ghost w0: string)
    returns (i: nat, first: string, second: string, ok: bool, ghost n: nat)
    requires Holds(buf, v1, n0, s) && Standing(buf, v0, w0) && v0 + |w0| <= v1
    modifies buf
    ensures var p := Others(s, w0, name2, strict);
            ok == p.Pair? && (ok ==> first == w0 && second == p.second && v1 <= i && Holds(buf, i, n, p.rest))
  {
    first, second := "", "";
    var v2, word2;
    v2, word2, ok, n := NextBehind(buf, v0, v1, false, name2, n0, s, w0);
    i := v2;
    if ok {
      i, first, second, ok, n := EndArguments(buf, v0, v1, v2, strict, n, Argument(s, false, name2).rest, w0, word2);
    }
  }

  /** The end of the line, and the two arguments in front of it. */
  method EndArguments(buf: array<char>, v0: nat, v1: nat, v: nat, strict: bool, ghost n0: nat, ghost s: string,
      ghost w0: string, ghost w1: string)
    returns (i: nat, first: string, second: string, ok: bool, ghost n: nat)
    requires Holds(buf, v, n0, s) && Standing(buf, v0, w0) && v0 + |w0| <= v && Standing(buf, v1, w1) && v1 + |w1| <= v
    modifies buf
    ensures ok <==> SkipBlank(s).Some?
                    && var c := Argument(SkipBlank(s).value, false, false); c.Arg? && !(strict && c.word != "")
    ensures ok ==> first == w0 && second == w1
    ensures ok ==> v <= i && Holds(buf, i, n, Argument(SkipBlank(s).value, false, false).rest)
  {
    first, second := "", "";
    i, ok, n := AssertEol(buf, v0, v1, v, strict, n0, s, w0, w1);
    if ok {
      first := ReadString(buf, v0, w0);
      second := ReadString(buf, v1, w1);
    }
  }
}
