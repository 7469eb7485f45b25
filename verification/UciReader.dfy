/** Importing a configuration file: the line buffer that grows, and the loop that reads, parses and executes
    (file.c). */
module UciReader {
  import opened Common
  import opened UciStore
  import opened UciReplay
  import opened UciPackage
  import opened UciWord
  import opened UciText
  import opened UciImport

  // ---- lines ----

  /** How much fgets takes for a buffer of this size: up to the end of the line, if there is room. */
  function Chunk(text: string, size: nat): (n: nat)
    requires size > 0
    ensures n <= |text| && n < size
  {
    var l := |Line(text)|;
    var n := if l < |text| then l + 1 else l;
    if n < size then n else size - 1
  }

  /** It stops at the first line end, or when the buffer is full, or at the end of the text. */
  lemma ChunkEnds(text: string, size: nat)
    requires text != "" && size > 1
    ensures var n := Chunk(text, size);
            0 < n && '\n' !in text[..n - 1] && (text[n - 1] != '\n' && n < |text| ==> n == size - 1)
  {
    var l, n := Line(text), Chunk(text, size);
    assert forall i :: 0 <= i < n - 1 ==> text[i] == l[i] && l[i] in l;
  }

  /** No line end among the first characters, and more to come: the buffer is too small. */
  lemma FetchMore(text: string, size: nat)
    requires 0 < size <= |text| && '\n' !in text[..size - 1]
    ensures Fetch(text, size) == if size > LINEBUF_MAX / 2 then TooLong else Fetch(text, 2 * size)
  {
    var l := Line(text);
    assert forall i :: 0 <= i < size - 1 ==> text[i] in text[..size - 1];
    assert Grown(size, |l| + 1) == Grown(2 * size, |l| + 1);
    if |l| == |text| {
      assert Grown(size, |l|) == Grown(2 * size, |l|);
    }
  }

  /** The text ends without a line end. */
  lemma FetchEnd(text: string, size: nat)
    requires text != "" && |text| < size && '\n' !in text
    ensures Fetch(text, size) == if size > LINEBUF_MAX / 2 then TooLong else Got(text, "", 2 * size)
  {
    assert text[..|text|] == text;
    LineIs(text, |text|);
  }

  lemma FetchLine(text: string, k: nat, size: nat)
    requires k < |text| && k + 1 < size <= LINEBUF_MAX && text[k] == '\n' && '\n' !in text[..k]
    ensures Fetch(text, size) == Got(Trimmed(text[..k]), text[k + 1..], size)
  {
    LineIs(text, k);
  }

  /** What stands in the buffer once n more characters have been taken. */
  lemma Loaded(had: string, left: string, n: nat, now: string)
    requires n <= |left| && |now| == |had| + n && now[..|had|] == had && now[|had|..] == left[..n] && '\n' !in had
    requires n > 0 ==> '\n' !in left[..n - 1]
    ensures had + left == now + left[n..]
    ensures n > 0 ==> '\n' !in now[..|now| - 1] && now[|now| - 1] == left[n - 1]
  {
    assert now == had + left[..n] && left == left[..n] + left[n..];
    if n > 0 {
      assert now[..|now| - 1] == had + left[..n - 1];
    }
  }

  lemma Pieces(all: string, ofs: nat, n: nat)
    requires ofs + n <= |all|
    ensures all[..ofs + n][..ofs] == all[..ofs] && all[..ofs + n][ofs..] == all[ofs..ofs + n]
    ensures n > 0 ==> all[..ofs + n][..ofs + n - 1] == all[..ofs + n - 1]
  {
  }

  datatype Progress = Again | Whole | Refused

  class Reader {
    var buf: array<char>
    /** What is left of the file, and whether reading has run into its end. */
    var file: string
    var eof: bool

    constructor (text: string)
      ensures fresh(buf) && buf.Length == LINEBUF && file == text && !eof
    {
      buf, file, eof := new char[LINEBUF](_ => NUL), text, false;
    }

    /** fgets into the buffer from position `at` on */
    method Fgets(at: nat) returns (n: nat)
      requires at + 1 < buf.Length && NUL !in file
      modifies this`file, this`eof, buf
      ensures n == Chunk(old(file), buf.Length - at) && at + n < buf.Length && file == old(file)[n..]
      ensures n == 0 <==> old(file) == ""
      ensures buf[..at] == old(buf[..at]) && buf[at..at + n] == old(file)[..n] && (n > 0 ==> buf[at + n] == NUL)
      ensures n == 0 ==> buf[..] == old(buf[..])
      ensures (eof ==> file == "" || old(eof)) && (n == 0 ==> eof)
    {
      var text, size := file, buf.Length - at;
      ghost var was := buf[..];
      n := Chunk(text, size);
      var i := 0;
      while i < n
        invariant i <= n && buf[..at] == was[..at] && buf[at..at + i] == text[..i] && (i == 0 ==> buf[..] == was)
        modifies buf
      {
        buf[at + i] := text[i];
        i := i + 1;
      }
      if n > 0 {
        buf[at + n] := NUL;
      }
      eof := eof || (n == |text| && n + 1 < size && (n == 0 || text[n - 1] != '\n'));
      file := text[n..];
    }

    /** uci_realloc: the buffer becomes twice as long. */
    method Double()
      requires buf.Length > 0
      modifies this`buf
      ensures fresh(buf) && buf.Length == 2 * old(buf.Length) && buf[..old(buf.Length)] == old(buf[..])
    {
      var was := buf;
      var now := new char[2 * was.Length](_ => NUL);
      forall i | 0 <= i < was.Length {
        now[i] := was[i];
      }
      buf := now;
    }

    /** The buffer holds the start of the text, which has no line end in it. */
    ghost predicate Filled(text: string, ofs: nat)
      reads this`buf, this`file, buf
    {
      && 1 < buf.Length <= LINEBUF_MAX && ofs + 1 < buf.Length && 2 * ofs < buf.Length && NUL !in text
      && text == buf[..ofs] + file && '\n' !in buf[..ofs] && (ofs > 0 ==> buf[ofs] == NUL)
    }

    /** What reading on will give. */
    ghost function Expected(text: string, ofs: nat): Fetched
      requires text != "" && buf.Length > 0
      reads this`buf, this`file
    {
      if ofs > 0 && file == "" then Got(text, "", buf.Length) else Fetch(text, buf.Length)
    }

    /** A line in the buffer loses its end. */
    method Trim(k: nat, ghost text: string)
      requires k + 1 < buf.Length && k < |text| && NUL !in text && buf[..k + 1] == text[..k + 1] && text[k] == '\n'
      modifies buf
      ensures Holds(buf, 0, |Trimmed(text[..k])|, Trimmed(text[..k]))
    {
      assert text[..k] == text[..k + 1][..k] == buf[..k];
      assert forall i :: 0 <= i < k ==> text[i] in text;
      if k >= 1 && buf[k - 1] == '\r' {
        buf[k - 1] := NUL;
        assert buf[0..k - 1] == text[..k - 1] == text[..k][..k - 1];
      } else {
        buf[k] := NUL;
        assert buf[0..k] == text[..k];
      }
    }

    /** The buffer is full, or the file has ended: it grows, if it may. */
    method Widen(ofs: nat, ghost text: string, ghost before: Fetched) returns (end: Progress)
      requires 1 < buf.Length <= LINEBUF_MAX && 0 < ofs < buf.Length && NUL !in text && text == buf[..ofs] + file
      requires '\n' !in buf[..ofs]
      requires buf[ofs] == NUL && before == Fetch(text, buf.Length) && (file != "" ==> ofs == buf.Length - 1)
      modifies this`buf
      ensures end == Again || (end == Refused && before == TooLong && buf == old(buf))
      ensures end == Again ==> fresh(buf) && Filled(text, ofs) && Expected(text, ofs) == before
    {
      if file == "" {
        assert text == buf[..ofs];
        FetchEnd(text, buf.Length);
      } else {
        assert text[..ofs] == buf[..ofs];
        FetchMore(text, buf.Length);
      }
      if buf.Length > LINEBUF_MAX / 2 {
        return Refused;
      }
      ghost var was := buf[..];
      Double();
      assert buf[..ofs] == was[..ofs];
      return Again;
    }

    /** The first half of a round: more of the text comes into the buffer. */
    method Load(ofs: nat, ghost text: string) returns (n: nat)
      requires Filled(text, ofs) && text != ""
      modifies this`file, this`eof, buf
      ensures (n == 0 <==> old(file) == "") && ofs + n < buf.Length && NUL !in text && buf[ofs + n] == NUL
      ensures |file| == old(|file|) - n
      ensures text == buf[..ofs + n] + file && (n > 0 ==> '\n' !in buf[..ofs + n - 1])
      ensures n == 0 ==> ofs > 0 && '\n' !in buf[..ofs]
      ensures n > 0 && buf[ofs + n - 1] != '\n' && file != "" ==> ofs + n == buf.Length - 1
      ensures (eof ==> file == "" || old(eof)) && (n == 0 ==> eof)
    {
      ghost var had, left := buf[..ofs], file;
      buf[2 * ofs] := NUL;
      assert buf[..ofs] == had && (ofs > 0 ==> buf[ofs] == NUL);
      assert forall c <- left :: c in text;
      n := Fgets(ofs);
      if n > 0 {
        ChunkEnds(left, buf.Length - ofs);
      }
      ghost var now := buf[..ofs + n];
      Pieces(buf[..], ofs, n);
      Loaded(had, left, n, now);
    }

    /** The buffer holds a whole line. */
    method Finish(ofs: nat, ghost text: string, ghost before: Fetched)
      requires 0 < ofs < buf.Length <= LINEBUF_MAX && NUL !in text && text == buf[..ofs] + file && buf[ofs - 1] == '\n'
      requires '\n' !in buf[..ofs - 1]
      requires text != "" && before == Fetch(text, buf.Length)
      modifies buf
      ensures before.Got? && before.rest == file && before.size == buf.Length
      ensures Holds(buf, 0, |before.line|, before.line)
    {
      ghost var k := ofs - 1;
      assert text[..ofs] == buf[..ofs] && text[..k] == buf[..k] && text[k + 1..] == file;
      FetchLine(text, k, buf.Length);
      Trim(ofs - 1, text);
    }

    /** One round of the loop in uci_getln */
    method Round(ofs: nat, ghost text: string) returns (ofs': nat, end: Progress)
      requires Filled(text, ofs) && text != ""
      modifies this`buf, this`file, this`eof, buf
      ensures buf == old(buf) || fresh(buf)
      ensures (eof ==> file == "" || old(eof)) && |file| <= old(|file|)
      ensures end == Again
              ==> Filled(text, ofs') && Expected(text, ofs') == old(Expected(text, ofs)) && |file| < old(|file|)
      ensures end == Whole ==> var r := old(Expected(text, ofs));
                              r.Got? && r.rest == file && r.size == buf.Length && Holds(buf, 0, |r.line|, r.line)
      ensures end == Refused ==> old(Expected(text, ofs)) == TooLong
    {
      ghost var before := Expected(text, ofs);
      var n := Load(ofs, text);
      ofs' := ofs + n;
      if n == 0 {
        assert text == buf[..ofs] == buf[0..ofs];
        return ofs', Whole;
      }
      if buf[ofs' - 1] == '\n' {
        Finish(ofs', text, before);
        return ofs', Whole;
      }
      assert buf[..ofs'] == buf[..ofs' - 1] + [buf[ofs' - 1]];
      end := Widen(ofs', text, before);
    }

    /** uci_getln: the next line, or that it is too long. */
    method GetLine() returns (ok: bool, ghost line: string)
      requires 1 < buf.Length <= LINEBUF_MAX && NUL !in file
      modifies this`buf, this`file, this`eof, buf
      ensures buf == old(buf) || fresh(buf)
      ensures old(file) == "" ==> ok && line == "" && file == "" && eof && Holds(buf, 0, 0, "") && buf == old(buf)
      ensures old(file) != "" ==> var r := Fetch(old(file), old(buf.Length));
                                  if ok then r == Got(line, file, buf.Length) && Holds(buf, 0, |line|, line)
                                  else r == TooLong
      ensures eof ==> file == "" || old(eof)
    {
      ghost var text := file;
      if file == "" {
        buf[0] := NUL;
        var n := Fgets(0);
        return true, "";
      }
      ghost var want := Fetch(file, buf.Length);
      var ofs, end := 0, Again;
      assert buf[..0] == [];
      while end == Again
        invariant buf == old(buf) || fresh(buf)
        invariant end == Again ==> Filled(text, ofs) && Expected(text, ofs) == want
        invariant end == Whole ==> want.Got? && want.rest == file && want.size == buf.Length
        invariant end == Whole ==> Holds(buf, 0, |want.line|, want.line)
        invariant (end == Refused ==> want == TooLong) && (eof ==> file == "" || old(eof))
        decreases |file|, end == Again
      {
        ofs, end := Round(ofs, text);
      }
      return end == Whole, if want.Got? then want.line else "";
    }
  }

  // ---- statements ----

  /** uci_parse_config after its arguments have been read */
  method ExecuteConfig(pkg: Package, kind: string, name: string, generated: nat -> string) returns (current: nat)
    requires ValidType(kind)
    modifies pkg
    ensures Executed(Import(old(pkg.sections), None, true), Config(kind, name), generated)
            == Import(pkg.sections, Some(current), true)
    ensures current < |pkg.sections| && pkg.delta == old(pkg.delta)
  {
    if name == "" {
      current := |pkg.sections|;
      pkg.AddSection(true, kind, generated(|pkg.sections|));
    } else {
      current := pkg.LookupSection(name);
      var r := pkg.Set(true, Ptr(name, Found(current, |pkg.sections|), None, None, Some(kind)));
    }
  }

  /** uci_parse_option after its arguments have been read. The pointer is not marked as looked up, and so an option is
      not deleted by setting it to the empty string. */
  method ExecuteOption(pkg: Package, s: nat, name: string, value: string, list: bool)
    requires s < |pkg.sections|
    modifies pkg
    ensures Executed(Import(old(pkg.sections), Some(s), true),
                     if list then List(name, value) else Option(name, value), _ => "")
         == Import(pkg.sections, Some(s), true)
    ensures pkg.delta == old(pkg.delta)
  {
    var o := pkg.LookupOption(s, name);
    var sec := pkg.sections[s];
    var p := Ptr(sec.name, Some(s), Some(name), Found(o, |sec.options|), Some(value));
    if list {
      var r := pkg.AddList(true, p);
    } else if value != "" {
      var r := pkg.Set(true, p);
    }
  }

  /** One command of a line */
  method Execute(pkg: Package, current: Maybe<nat>, c: Statement, generated: nat -> string)
    returns (now: Maybe<nat>, ok: bool)
    requires current.Some? ==> current.value < |pkg.sections|
    modifies pkg
    ensures Executed(Import(old(pkg.sections), current, true), c, generated) == Import(pkg.sections, now, ok)
    ensures pkg.delta == old(pkg.delta)
  {
    match c
    case Package => return current, true;
    case Config(kind, name) =>
      if !ValidType(kind) {
        return current, false;
      }
      var s := ExecuteConfig(pkg, kind, name, generated);
      return Some(s), true;
    case Option(name, value) =>
      if current.None? {
        return current, false;
      }
      ExecuteOption(pkg, current.value, name, value, false);
      return current, true;
    case List(name, value) =>
      if current.None? {
        return current, false;
      }
      ExecuteOption(pkg, current.value, name, value, true);
      return current, true;
  }

  method ExecuteAll(pkg: Package, current: Maybe<nat>, cs: seq<Statement>, generated: nat -> string)
    returns (now: Maybe<nat>, ok: bool)
    requires current.Some? ==> current.value < |pkg.sections|
    modifies pkg
    ensures ExecutedAll(Import(old(pkg.sections), current, true), cs, generated) == Import(pkg.sections, now, ok)
    ensures pkg.delta == old(pkg.delta)
  {
    now, ok := current, true;
    var i := 0;
    ghost var all := ExecutedAll(Import(pkg.sections, current, true), cs, generated);
    assert cs[0..] == cs;
    while i < |cs| && ok
      invariant i <= |cs| && (now.Some? ==> now.value < |pkg.sections|) && pkg.delta == old(pkg.delta)
      invariant all == ExecutedAll(Import(pkg.sections, now, ok), cs[i..], generated)
    {
      assert cs[i..][1..] == cs[i + 1..];
      now, ok := Execute(pkg, now, cs[i], generated);
      i := i + 1;
    }
  }

  // ---- the loop ----

  /** Imports with the same outcome; what the current section is does not matter at the end. */
  predicate Same(a: Import, b: Import) { a.sections == b.sections && a.ok == b.ok }

  /** What uci_import does with a line in the buffer. */
  method Tell(pkg: Package, current: Maybe<nat>, buf: array<char>, strict: bool, generated: nat -> string,
      ghost line: string)
    returns (now: Maybe<nat>, ok: bool)
    requires (current.Some? ==> current.value < |pkg.sections|) && Holds(buf, 0, |line|, line)
    modifies pkg, buf
    ensures Told(Import(old(pkg.sections), current, true), line, strict, generated) == Import(pkg.sections, now, ok)
    ensures pkg.delta == old(pkg.delta)
  {
    var cs, fine := ParseLine(buf, strict, |line|, line);
    now, ok := ExecuteAll(pkg, current, cs, generated);
    ok := !strict || (ok && fine);
  }

  /** uci_import of a text: the package it makes is the one the definition of the text form says. */
  method ImportText(text: string, strict: bool, generated: nat -> string) returns (pkg: Package, ok: bool)
    requires NUL !in text
    ensures fresh(pkg) && pkg.delta == []
    ensures var r := Imported(text, strict, generated); ok == r.ok && pkg.sections == r.sections
  {
    pkg := new Package(false);
    var reader := new Reader(text);
    var current: Maybe<nat> := None;
    ok := true;
    while !reader.eof && ok
      invariant fresh(pkg) && pkg.delta == [] && fresh(reader) && fresh(reader.buf)
      invariant current.Some? ==> current.value < |pkg.sections|
      invariant 1 < reader.buf.Length <= LINEBUF_MAX && NUL !in reader.file && (reader.eof ==> reader.file == "")
      invariant Same(ImportedFrom(Import(pkg.sections, current, ok), reader.file, reader.buf.Length, strict, generated),
                Imported(text, strict, generated))
      decreases |reader.file|, !reader.eof, ok
    {
      ghost var m, left, size := Import(pkg.sections, current, true), reader.file, reader.buf.Length;
      var fine; ghost var line;
      fine, line := reader.GetLine();
      if !fine {
        ok := false;
        break;
      }
      current, ok := Tell(pkg, current, reader.buf, strict, generated, line);
    }
  }
}
