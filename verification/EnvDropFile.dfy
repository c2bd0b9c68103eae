/** The text of an env drop file (`writeDropFile` in src/env-registry.ts) and a
    reader of it that follows the quoting rules of the POSIX Shell Command
    Language: section 2.2.1 (backslash) and section 2.2.2 (single quotes).
    Writing the file, its mode and the sweep of old files are not modelled. */
module EnvDropFile {
  import opened Wrappers
  import opened JsText
  import Env = EnvRegistry

  type Assignments = seq<(string, string)>

  // ---- the writer ---------------------------------------------------------

  /** `value.replaceAll("'", "'\\''")` */
  function Escape(value: string): string {
    if value == "" then ""
    else (if value[0] == '\'' then "'\\''" else [value[0]]) + Escape(value[1..])
  }

  function ExportLine(name: string, value: string): string {
    "export " + name + "='" + Escape(value) + "'"
  }

  function ExportLines(vars: Assignments): seq<string> {
    if vars == [] then [] else [ExportLine(vars[0].0, vars[0].1)] + ExportLines(vars[1..])
  }

  function DropText(vars: Assignments): string {
    Join(ExportLines(vars), "\n") + "\n"
  }

  // ---- the shell's reading ------------------------------------------------

  /** Characters that mean something to the shell outside quotes; the reader
      refuses a word that has one. */
  predicate Special(c: char) {
    c in "|&;<>()$`\" \t*?[#~=%"
  }

  /** Reads a word to the end of its command, removing quotes: its value and the
      text from the terminating newline on. */
  function ReadWord(s: string): (r: Option<(string, string)>)
    ensures r.Some? ==> |r.value.1| <= |s|
    decreases |s|
  {
    if s == "" || s[0] == '\n' then Some(("", s))
    else if s[0] == '\'' then ReadQuoted(s[1..])
    else if s[0] == '\\' then
      if |s| == 1 then None
      else if s[1] == '\n' then ReadWord(s[2..])
      else Prepend(s[1], ReadWord(s[2..]))
    else if Special(s[0]) then None
    else Prepend(s[0], ReadWord(s[1..]))
  }

  /** Inside single quotes every character is itself, up to the closing quote. */
  function ReadQuoted(s: string): (r: Option<(string, string)>)
    ensures r.Some? ==> |r.value.1| <= |s|
    decreases |s|
  {
    if s == "" then None
    else if s[0] == '\'' then ReadWord(s[1..])
    else Prepend(s[0], ReadQuoted(s[1..]))
  }

  function Prepend(c: char, r: Option<(string, string)>): Option<(string, string)> {
    if r.None? then None else Some(([c] + r.value.0, r.value.1))
  }

  /** Length of the leading run of name characters. */
  function NameLength(s: string): (n: nat)
    ensures n <= |s|
  {
    if s != "" && Env.NameChar(s[0]) then 1 + NameLength(s[1..]) else 0
  }

  const EXPORT := "export "

  /** The assignments a script of `export name=word` lines makes, in order; None
      for any other script. */
  function ReadScript(s: string): Option<Assignments>
    decreases |s|
  {
    if s == "" then Some([])
    else if s[0] == '\n' then ReadScript(s[1..])
    else if !StartsWith(s, EXPORT) then None
    else
      var body := s[|EXPORT|..];
      var n := NameLength(body);
      if n == 0 || n == |body| || body[n] != '=' then None
      else
        var word := ReadWord(body[n + 1..]);
        if word.None? then None
        else
          var later := ReadScript(word.value.1);
          if later.None? then None else Some([(body[..n], word.value.0)] + later.value)
  }

  // ---- round trip ---------------------------------------------------------

  predicate EndsCommand(tail: string) { tail == "" || tail[0] == '\n' }

  lemma QuoteReads(rest: string)
    ensures ReadQuoted("'\\''" + rest) == Prepend('\'', ReadQuoted(rest))
  {
    var s := "'\\''" + rest;
    assert s[1..] == "\\''" + rest;
    assert ReadWord("\\''" + rest) == Prepend('\'', ReadWord("'" + rest)) by {
      assert ("\\''" + rest)[2..] == "'" + rest;
    }
    assert ("'" + rest)[1..] == rest;
  }

  lemma PlainReads(c: char, rest: string)
    requires c != '\''
    ensures ReadQuoted([c] + rest) == Prepend(c, ReadQuoted(rest))
  {
    assert ([c] + rest)[1..] == rest;
  }

  /** Every value, quotes and newlines included, survives its quoting. */
  lemma {:induction false} QuotedReadsBack(value: string, tail: string)
    requires EndsCommand(tail)
    ensures ReadQuoted(Escape(value) + "'" + tail) == Some((value, tail))
  {
    var s := Escape(value) + "'" + tail;
    if value == "" {
      assert s == "'" + tail && s[1..] == tail;
    } else {
      var rest := Escape(value[1..]) + "'" + tail;
      QuotedReadsBack(value[1..], tail);
      assert value == [value[0]] + value[1..];
      hide ReadQuoted;
      if value[0] == '\'' {
        assert s == "'\\''" + rest;
        QuoteReads(rest);
      } else {
        assert s == [value[0]] + rest;
        PlainReads(value[0], rest);
      }
    }
  }

  lemma {:induction false} NameReads(name: string, rest: string)
    requires forall c <- name :: Env.NameChar(c)
    requires rest != "" && !Env.NameChar(rest[0])
    ensures NameLength(name + rest) == |name|
  {
    if name == "" {
      assert name + rest == rest;
    } else {
      NameReads(name[1..], rest);
      assert (name + rest)[1..] == name[1..] + rest;
    }
  }

  lemma LineReads(name: string, value: string, tail: string)
    requires Env.ValidName(name) && EndsCommand(tail)
    ensures ReadScript(ExportLine(name, value) + tail) ==
            var later := ReadScript(tail);
            if later.None? then None else Some([(name, value)] + later.value)
  {
    hide ReadQuoted, Escape, NameLength;
    var quoted := Escape(value) + "'" + tail;
    var body := name + ("='" + quoted);
    var s := ExportLine(name, value) + tail;
    assert s == EXPORT + body;
    assert s[0] == 'e' && s[..|EXPORT|] == EXPORT && s[|EXPORT|..] == body;
    NameReads(name, "='" + quoted);
    var n := |name|;
    assert body[n] == '=' && body[..n] == name;
    assert body[n + 1..] == "'" + quoted;
    assert ("'" + quoted)[1..] == quoted;
    QuotedReadsBack(value, tail);
  }

  ghost predicate ValidNames(vars: Assignments) {
    forall v <- vars :: Env.ValidName(v.0)
  }

  lemma DropTextFirst(vars: Assignments)
    requires vars != []
    ensures var line := ExportLine(vars[0].0, vars[0].1);
            DropText(vars) == line + ("\n" + if |vars| == 1 then "" else DropText(vars[1..]))
  {
    var line, lines := ExportLine(vars[0].0, vars[0].1), ExportLines(vars);
    assert lines[0] == line && lines[1..] == ExportLines(vars[1..]);
    if |vars| == 1 {
      assert |lines| == 1 && "\n" + "" == "\n";
    } else {
      var rest := Join(ExportLines(vars[1..]), "\n");
      assert (line + "\n" + rest) + "\n" == line + ("\n" + (rest + "\n"));
    }
  }

  /** QUOTING ROUND TRIP. The shell reads a drop file as exactly the assignments
      it was written from, in order, whatever the values contain. */
  lemma {:induction false} DropFileReadsBack(vars: Assignments)
    requires ValidNames(vars)
    ensures ReadScript(DropText(vars)) == Some(vars)
  {
    if vars == [] {
      assert DropText(vars) == "\n" && "\n"[1..] == "" && ReadScript("") == Some([]);
    } else {
      var rest := vars[1..];
      var tail := if rest == [] then "" else DropText(rest);
      assert vars[0] in vars && vars == [vars[0]] + rest;
      if rest != [] { DropFileReadsBack(rest); }
      assert ReadScript(tail) == Some(rest);
      DropTextFirst(vars);
      assert ("\n" + tail)[1..] == tail;
      LineReads(vars[0].0, vars[0].1, "\n" + tail);
    }
  }

  /** The environment after sourcing assignments in order. */
  function Source(env: map<string, string>, vars: Assignments): map<string, string>
    decreases |vars|
  {
    if vars == [] then env else Source(env[vars[0].0 := vars[0].1], vars[1..])
  }

  /** With distinct names, which is what the keys of a record are, every variable
      ends with its own value and no other variable changes. */
  lemma {:induction false} SourcedValues(env: map<string, string>, vars: Assignments)
    requires forall i, j :: 0 <= i < j < |vars| ==> vars[i].0 != vars[j].0
    ensures forall v <- vars :: v.0 in Source(env, vars) && Source(env, vars)[v.0] == v.1
    ensures forall n :: (forall v <- vars :: v.0 != n) ==>
              (n in Source(env, vars) <==> n in env) && (n in env ==> Source(env, vars)[n] == env[n])
    decreases |vars|
  {
    if vars != [] {
      var rest := vars[1..];
      SourcedValues(env[vars[0].0 := vars[0].1], rest);
      assert vars == [vars[0]] + rest;
      assert forall v <- rest :: v.0 != vars[0].0;
    }
  }

  /** Different assignments never share a text. */
  lemma DropTextInjective(one: Assignments, two: Assignments)
    requires ValidNames(one) && ValidNames(two) && DropText(one) == DropText(two)
    ensures one == two
  {
    DropFileReadsBack(one);
    DropFileReadsBack(two);
  }
}
