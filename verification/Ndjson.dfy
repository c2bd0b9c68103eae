/** The NDJSON codec (src/ndjson.ts): one JSON value a line, decoded from a
    stream that arrives in arbitrary chunks. JSON itself is a parameter: `parse`
    is JSON.parse (None where it throws) and `stringify` is JSON.stringify. */
module Ndjson {
  import opened Wrappers
  import opened JsText

  // ---- the decoder --------------------------------------------------------

  datatype PushResult<V> =
    | Frames(frames: seq<V>)
    | ThrewMalformed
    | ThrewTooLong

  /** What the decoder's loop does to a buffer: the frames it finishes (None if
      a line is malformed) and the buffer it leaves behind. */
  function Drain<V>(parse: string -> Option<V>, buf: string): (Option<seq<V>>, string)
    decreases |buf|
  {
    if '\n' !in buf then (Some([]), buf)
    else
      var idx := IndexOf(buf, '\n');
      var line, rest := Trim(buf[..idx]), buf[idx + 1..];
      if line == "" then Drain(parse, rest)
      else match parse(line)
        case None => (None, rest)
        case Some(v) =>
          var (frames, left) := Drain(parse, rest);
          (if frames.Some? then Some([v] + frames.value) else None, left)
  }

  /** One `push`: its answer and the next buffer. */
  function PushStep<V>(parse: string -> Option<V>, max: nat, buf: string, chunk: string): (PushResult<V>, string) {
    var (frames, left) := Drain(parse, buf + chunk);
    if frames.None? then (ThrewMalformed, left)
    else if ByteLength(left) > max then (ThrewTooLong, left)
    else (Frames(frames.value), left)
  }

  class NdjsonDecoder<V> {
    const parse: string -> Option<V>
    const maxBufBytes: nat
    var buf: string

    constructor (parse: string -> Option<V>, maxBufBytes: nat)
      ensures this.parse == parse && this.maxBufBytes == maxBufBytes && buf == ""
    {
      this.parse, this.maxBufBytes, this.buf := parse, maxBufBytes, "";
    }

    method Push(chunk: string) returns (r: PushResult<V>)
      modifies this`buf
      ensures (r, buf) == PushStep(parse, maxBufBytes, old(buf), chunk)
    {
      buf := buf + chunk;
      ghost var text := buf;
      var frames: seq<V> := [];
      ghost var whole := Drain(parse, text).0;
      if whole.Some? { assert frames + whole.value == whole.value; }
      while '\n' in buf
        invariant var (rest, left) := Drain(parse, buf);
                  Drain(parse, text) == (if rest.Some? then Some(frames + rest.value) else None, left)
        decreases |buf|
      {
        var idx := IndexOf(buf, '\n');
        var line := Trim(buf[..idx]);
        buf := buf[idx + 1..];
        if line == "" { continue; }
        var parsed := parse(line);
        if parsed.None? { return ThrewMalformed; }
        ghost var rest := Drain(parse, buf).0;
        if rest.Some? {
          assert frames + ([parsed.value] + rest.value) == (frames + [parsed.value]) + rest.value;
        }
        frames := frames + [parsed.value];
      }
      assert frames + [] == frames;
      if ByteLength(buf) > maxBufBytes { return ThrewTooLong; }
      return Frames(frames);
    }
  }

  function IndexOf(s: string, c: char): (i: nat)
    requires c in s
    ensures i < |s| && s[i] == c && c !in s[..i]
  {
    if s[0] == c then 0
    else
      var i := IndexOf(s[1..], c);
      assert s[..i + 1] == [s[0]] + s[1..][..i];
      i + 1
  }

  // ---- the whole-text reading ---------------------------------------------

  /** The newline-terminated lines of a text. */
  function Lines(text: string): seq<string> {
    var parts := Split(text, '\n');
    parts[..|parts| - 1]
  }

  /** What follows the last newline. */
  function Tail(text: string): string {
    var parts := Split(text, '\n');
    parts[|parts| - 1]
  }

  /** The values of a list of lines, blank ones skipped; None if one of them is
      malformed. */
  function DecodeLines<V>(parse: string -> Option<V>, lines: seq<string>): Option<seq<V>> {
    if lines == [] then Some([])
    else
      var line, rest := Trim(lines[0]), DecodeLines(parse, lines[1..]);
      if line == "" then rest
      else if parse(line).Some? && rest.Some? then Some([parse(line).value] + rest.value)
      else None
  }

  lemma {:induction false} DecodeLinesConcat<V>(parse: string -> Option<V>, a: seq<string>, b: seq<string>)
    ensures var x, y := DecodeLines(parse, a), DecodeLines(parse, b);
            DecodeLines(parse, a + b) == if x.Some? && y.Some? then Some(x.value + y.value) else None
  {
    if a == [] {
      assert a + b == b;
      var y := DecodeLines(parse, b);
      if y.Some? { assert [] + y.value == y.value; }
    } else {
      DecodeLinesConcat(parse, a[1..], b);
      assert (a + b)[1..] == a[1..] + b;
      var line := Trim(a[0]);
      var x, y := DecodeLines(parse, a[1..]), DecodeLines(parse, b);
      if line != "" && parse(line).Some? && x.Some? && y.Some? {
        assert [parse(line).value] + (x.value + y.value) == ([parse(line).value] + x.value) + y.value;
      }
    }
  }

  lemma GlueLast(l: seq<string>, r: seq<string>)
    requires l != [] && r != []
    ensures var t := l[|l| - 1];
            Glue(l, r) == l[..|l| - 1] + Glue([t], r) && Glue([t], r) != []
  {
    assert Glue([l[|l| - 1]], r) == [l[|l| - 1] + r[0]] + r[1..];
  }

  lemma TailNewlineFree(text: string)
    ensures '\n' !in Tail(text) && Split(Tail(text), '\n') == [Tail(text)]
  {
    var parts := Split(text, '\n');
    assert parts[|parts| - 1] in parts;
    SplitNone(Tail(text), '\n');
  }

  /** Appending to a text extends its lines and replaces its tail, and both
      depend on the text only through its tail. */
  lemma LinesConcat(a: string, b: string)
    ensures Lines(a + b) == Lines(a) + Lines(Tail(a) + b)
    ensures Tail(a + b) == Tail(Tail(a) + b)
  {
    TailNewlineFree(a);
    SplitConcat(a, b, '\n');
    SplitConcat(Tail(a), b, '\n');
    GlueLast(Split(a, '\n'), Split(b, '\n'));
    var g := Split(Tail(a) + b, '\n');
    assert Split(a + b, '\n') == Lines(a) + g;
    assert (Lines(a) + g)[..|Lines(a)| + |g| - 1] == Lines(a) + g[..|g| - 1];
  }

  lemma LineFirst(line: string, rest: string)
    requires '\n' !in line
    ensures Lines(line + "\n" + rest) == [line] + Lines(rest)
    ensures Tail(line + "\n" + rest) == Tail(rest)
  {
    SplitAtSeparator(line, '\n', rest);
    SplitNone(line, '\n');
  }

  /** The decoder's loop computes the whole-text reading of its buffer. */
  lemma {:induction false} DrainReadsLines<V>(parse: string -> Option<V>, buf: string)
    ensures var (frames, left) := Drain(parse, buf);
            frames == DecodeLines(parse, Lines(buf)) && (frames.Some? ==> left == Tail(buf))
    decreases |buf|
  {
    if '\n' !in buf {
      SplitNone(buf, '\n');
    } else {
      var idx := IndexOf(buf, '\n');
      var rest := buf[idx + 1..];
      assert buf == buf[..idx] + "\n" + rest;
      LineFirst(buf[..idx], rest);
      DrainReadsLines(parse, rest);
      assert ([buf[..idx]] + Lines(rest))[1..] == Lines(rest);
    }
  }

  lemma {:induction false} SplitFirst(line: string, rest: string, k: nat)
    requires '\n' !in line && k < |Split(rest, '\n')|
    ensures Split(line + "\n" + rest, '\n') == [line] + Split(rest, '\n')
    ensures Split(line + "\n" + rest, '\n')[1..] == Split(rest, '\n')
    ensures Lines(line + "\n" + rest)[..k + 1] == [line] + Lines(rest)[..k]
    ensures Split(line + "\n" + rest, '\n')[k + 2..] == Split(rest, '\n')[k + 1..]
  {
    SplitAtSeparator(line, '\n', rest);
    SplitNone(line, '\n');
  }

  lemma DecodeLinesCons<V>(parse: string -> Option<V>, line: string, good: seq<string>)
    requires DecodeLines(parse, good).Some? && (Trim(line) == "" || parse(Trim(line)).Some?)
    ensures DecodeLines(parse, [line] + good).Some?
  {
    assert ([line] + good)[1..] == good;
  }

  /** A malformed line leaves exactly the text after it in the buffer, and the
      frames of the good lines before it are lost with the call. */
  lemma {:induction false} MalformedLeavesTheRest<V>(parse: string -> Option<V>, buf: string) returns (k: nat)
    requires Drain(parse, buf).0.None?
    ensures k < |Lines(buf)| && DecodeLines(parse, Lines(buf)[..k]).Some?
    ensures Trim(Lines(buf)[k]) != "" && parse(Trim(Lines(buf)[k])).None?
    ensures Drain(parse, buf).1 == Join(Split(buf, '\n')[k + 1..], "\n")
    decreases |buf|
  {
    var idx := IndexOf(buf, '\n');
    var line, rest := buf[..idx], buf[idx + 1..];
    assert buf == line + "\n" + rest;
    LineFirst(line, rest);
    SplitFirst(line, rest, 0);
    var t := Trim(line);
    if t != "" && parse(t).None? {
      k := 0;
      JoinSplit(rest, '\n');
      assert Lines(buf)[..0] == [];
    } else {
      var j := MalformedLeavesTheRest(parse, rest);
      k := j + 1;
      SplitFirst(line, rest, j);
      DecodeLinesCons(parse, line, Lines(rest)[..j]);
    }
  }

  // ---- runs of pushes -----------------------------------------------------

  function Concat(chunks: seq<string>): string {
    if chunks == [] then "" else chunks[0] + Concat(chunks[1..])
  }

  /** Frames and final buffer of a run of pushes; None once one of them throws. */
  function Feed<V>(parse: string -> Option<V>, max: nat, buf: string, chunks: seq<string>): Option<(seq<V>, string)>
    decreases |chunks|
  {
    if chunks == [] then Some(([], buf))
    else
      var (r, left) := PushStep(parse, max, buf, chunks[0]);
      if !r.Frames? then None
      else
        var later := Feed(parse, max, left, chunks[1..]);
        if later.None? then None else Some((r.frames + later.value.0, later.value.1))
  }

  /** Every push leaves a tail within the cap. */
  ghost predicate TailsFit(max: nat, buf: string, chunks: seq<string>) {
    forall k :: 0 < k <= |chunks| ==> ByteLength(Tail(buf + Concat(chunks[..k]))) <= max
  }

  /** What one push contributes to the reading of the whole text. */
  lemma PushReads<V>(parse: string -> Option<V>, max: nat, buf: string, chunk: string)
    ensures var (r, left) := PushStep(parse, max, buf, chunk); var frames := DecodeLines(parse, Lines(buf + chunk));
            && (r.Frames? <==> frames.Some? && ByteLength(Tail(buf + chunk)) <= max)
            && (r.Frames? ==> frames == Some(r.frames) && left == Tail(buf + chunk))
  {
    hide Lines, Tail, DecodeLines, Drain;
    DrainReadsLines(parse, buf + chunk);
  }

  lemma OnePush<V>(parse: string -> Option<V>, buf: string, chunks: seq<string>)
    requires chunks != []
    ensures var text, first, later := buf + Concat(chunks), buf + chunks[0],
        Tail(buf + chunks[0]) + Concat(chunks[1..]);
            var x, y := DecodeLines(parse, Lines(first)), DecodeLines(parse, Lines(later));
            && DecodeLines(parse, Lines(text)) == (if x.Some? && y.Some? then Some(x.value + y.value) else None)
            && Tail(text) == Tail(later) && '\n' !in Tail(first)
  {
    hide Lines, Tail, DecodeLines;
    var first := buf + chunks[0];
    assert buf + Concat(chunks) == first + Concat(chunks[1..]);
    LinesConcat(first, Concat(chunks[1..]));
    TailNewlineFree(first);
    DecodeLinesConcat(parse, Lines(first), Lines(Tail(first) + Concat(chunks[1..])));
  }

  /** CHUNK INDEPENDENCE. A run of pushes succeeds exactly when every complete
      line of the whole text decodes and every intermediate tail is within the
      cap; it then answers the frames of the whole text's complete lines and
      holds exactly the unfinished tail. */
  lemma {:induction false} FeedReadsWholeText<V>(parse: string -> Option<V>, max: nat, buf: string, chunks: seq<string>)
    requires '\n' !in buf
    ensures var text, run := buf + Concat(chunks), Feed(parse, max, buf, chunks);
            && (run.Some? <==> DecodeLines(parse, Lines(text)).Some? && TailsFit(max, buf, chunks))
            && (run.Some? ==> DecodeLines(parse, Lines(text)) == Some(run.value.0) && run.value.1 == Tail(text))
    decreases |chunks|
  {
    if chunks == [] {
      assert buf + "" == buf;
      SplitNone(buf, '\n');
      assert DecodeLines<V>(parse, []) == Some([]);
    } else {
      hide Lines, Tail, DecodeLines, Drain, PushStep, TailsFit, Concat;
      PushReads(parse, max, buf, chunks[0]);
      OnePush(parse, buf, chunks);
      FeedReadsWholeText(parse, max, Tail(buf + chunks[0]), chunks[1..]);
      TailsFitCons(max, buf, chunks);
    }
  }

  lemma TailsFitCons(max: nat, buf: string, chunks: seq<string>)
    requires chunks != []
    ensures var left := Tail(buf + chunks[0]);
            TailsFit(max, buf, chunks) <==> ByteLength(left) <= max && TailsFit(max, left, chunks[1..])
  {
    var left := Tail(buf + chunks[0]);
    forall k | 0 < k <= |chunks|
      ensures Tail(buf + Concat(chunks[..k])) == if k == 1 then left else Tail(left + Concat(chunks[1..][..k - 1]))
    {
      assert chunks[..k][1..] == chunks[1..][..k - 1];
      assert buf + Concat(chunks[..k]) == (buf + chunks[0]) + Concat(chunks[1..][..k - 1]);
      LinesConcat(buf + chunks[0], Concat(chunks[1..][..k - 1]));
      if k == 1 {
        SplitNone(left, '\n');
        assert left + "" == left;
      }
    }
    if TailsFit(max, buf, chunks) {
      assert ByteLength(Tail(buf + Concat(chunks[..1]))) <= max;
      forall j | 0 < j <= |chunks[1..]| ensures ByteLength(Tail(left + Concat(chunks[1..][..j]))) <= max {
        assert ByteLength(Tail(buf + Concat(chunks[..j + 1]))) <= max;
      }
    }
  }

  /** Two chunkings of one text that both get through agree on everything. */
  lemma ChunkingsAgree<V>(parse: string -> Option<V>, max: nat, one: seq<string>, two: seq<string>)
    requires Concat(one) == Concat(two)
    requires Feed(parse, max, "", one).Some? && Feed(parse, max, "", two).Some?
    ensures Feed(parse, max, "", one) == Feed(parse, max, "", two)
    ensures Feed(parse, max, "", one).value.1 == Tail(Concat(one))
  {
    assert "" + Concat(one) == Concat(one);
    FeedReadsWholeText(parse, max, "", one);
    FeedReadsWholeText(parse, max, "", two);
  }

  // ---- round trip ---------------------------------------------------------

  function EncodeFrame<V>(stringify: V -> string, value: V): string {
    stringify(value) + "\n"
  }

  function EncodeAll<V>(stringify: V -> string, values: seq<V>): string {
    if values == [] then "" else EncodeFrame(stringify, values[0]) + EncodeAll(stringify, values[1..])
  }

  /** What the codec relies on JSON for: parse undoes stringify, and the text of
      a value is non-blank, unpadded and on one line (section 7 of RFC 8259
      makes stringify escape every control character). */
  ghost predicate JsonLike<V(!new)>(stringify: V -> string, parse: string -> Option<V>) {
    forall v :: var s := stringify(v); parse(s) == Some(v) && '\n' !in s && Trim(s) == s && s != ""
  }

  lemma {:induction false} EncodedLines<V(!new)>(stringify: V -> string, parse: string -> Option<V>, values: seq<V>)
    requires JsonLike(stringify, parse)
    ensures DecodeLines(parse, Lines(EncodeAll(stringify, values))) == Some(values)
    ensures Tail(EncodeAll(stringify, values)) == ""
  {
    if values == [] {
      assert Split("", '\n') == [""];
    } else {
      var s, rest := stringify(values[0]), EncodeAll(stringify, values[1..]);
      EncodedLines(stringify, parse, values[1..]);
      LineFirst(s, rest);
      assert ([s] + Lines(rest))[1..] == Lines(rest);
      assert [values[0]] + values[1..] == values;
    }
  }

  /** Cutting encoded frames anywhere leaves a prefix of one of them. */
  lemma {:induction false} CutTail<V(!new)>(stringify: V -> string, parse: string -> Option<V>, values: seq<V>,
      cut: nat)
    requires JsonLike(stringify, parse) && cut <= |EncodeAll(stringify, values)|
    ensures var t := Tail(EncodeAll(stringify, values)[..cut]);
            t == "" || exists i :: 0 <= i < |values| && StartsWith(stringify(values[i]), t)
  {
    var text := EncodeAll(stringify, values);
    if values == [] {
      assert text[..cut] == "" && Split("", '\n') == [""];
    } else {
      var s, rest := stringify(values[0]), EncodeAll(stringify, values[1..]);
      if cut <= |s| {
        assert text[..cut] == s[..cut];
        SplitNone(s[..cut], '\n');
        assert StartsWith(stringify(values[0]), s[..cut]);
      } else {
        var later := cut - |s| - 1;
        assert text[..cut] == s + "\n" + rest[..later];
        LineFirst(s, rest[..later]);
        CutTail(stringify, parse, values[1..], later);
        var t := Tail(rest[..later]);
        if t != "" {
          var i :| 0 <= i < |values[1..]| && StartsWith(stringify(values[1..][i]), t);
          assert values[i + 1] == values[1..][i];
        }
      }
    }
  }

  lemma {:induction false} ConcatPrefix(chunks: seq<string>, k: nat)
    requires k <= |chunks|
    ensures StartsWith(Concat(chunks), Concat(chunks[..k]))
  {
    if k > 0 {
      ConcatPrefix(chunks[1..], k - 1);
      assert chunks[..k][1..] == chunks[1..][..k - 1];
    }
  }

  /** ROUND TRIP over every chunking at once: decoding any chunking of the
      encoded values gives the values back, exactly when each value's text is
      within the cap. */
  lemma RoundTripForEveryChunking<V(!new)>(stringify: V -> string, parse: string -> Option<V>, max: nat, values: seq<V>)
    requires JsonLike(stringify, parse)
    ensures (forall i :: 0 <= i < |values| ==> ByteLength(stringify(values[i])) <= max) <==>
            (forall chunks :: Concat(chunks) == EncodeAll(stringify, values) ==>
               Feed(parse, max, "", chunks) == Some((values, "")))
  {
    if forall i :: 0 <= i < |values| ==> ByteLength(stringify(values[i])) <= max {
      forall chunks | Concat(chunks) == EncodeAll(stringify, values)
        ensures Feed(parse, max, "", chunks) == Some((values, ""))
      {
        RoundTripWithin(stringify, parse, max, values, chunks);
      }
    } else {
      var i :| 0 <= i < |values| && ByteLength(stringify(values[i])) > max;
      var chunks := OversizeSplits(stringify, parse, max, values, i);
      assert Concat(chunks) == EncodeAll(stringify, values);
    }
  }

  lemma RoundTripWithin<V(!new)>(stringify: V -> string, parse: string -> Option<V>, max: nat, values: seq<V>,
      chunks: seq<string>)
    requires JsonLike(stringify, parse)
    requires forall i :: 0 <= i < |values| ==> ByteLength(stringify(values[i])) <= max
    requires Concat(chunks) == EncodeAll(stringify, values)
    ensures Feed(parse, max, "", chunks) == Some((values, ""))
  {
    var text := EncodeAll(stringify, values);
    forall k | 0 < k <= |chunks| ensures ByteLength(Tail("" + Concat(chunks[..k]))) <= max {
      var cut := |Concat(chunks[..k])|;
      ConcatPrefix(chunks, k);
      CutTail(stringify, parse, values, cut);
      assert "" + Concat(chunks[..k]) == text[..cut];
      var t := Tail(text[..cut]);
      if t != "" {
        var i :| 0 <= i < |values| && StartsWith(stringify(values[i]), t);
        var s := stringify(values[i]);
        ByteLengthConcat(t, s[|t|..]);
        assert t + s[|t|..] == s;
      }
    }
    assert "" + text == text;
    EncodedLines(stringify, parse, values);
    FeedReadsWholeText(parse, max, "", chunks);
  }

  lemma FeedOne<V>(parse: string -> Option<V>, max: nat, buf: string, chunk: string)
    ensures var (r, left) := PushStep(parse, max, buf, chunk);
            Feed(parse, max, buf, [chunk]) == if r.Frames? then Some((r.frames, left)) else None
  {
    var (r, left) := PushStep(parse, max, buf, chunk);
    assert Feed(parse, max, left, []) == Some(([], left));
    if r.Frames? { assert r.frames + [] == r.frames; }
  }

  lemma OneWholeFramePasses<V(!new)>(stringify: V -> string, parse: string -> Option<V>, max: nat, value: V)
    requires JsonLike(stringify, parse)
    ensures Feed(parse, max, "", [EncodeFrame(stringify, value)]) == Some(([value], ""))
  {
    var text := EncodeFrame(stringify, value);
    FeedOne(parse, max, "", text);
    assert EncodeAll(stringify, [value]) == text by {
      assert EncodeAll(stringify, []) == "";
      assert text + "" == text;
    }
    EncodedLines(stringify, parse, [value]);
    assert "" + text == text;
    DrainReadsLines(parse, text);
  }

  lemma UnfinishedLongLineThrows<V>(parse: string -> Option<V>, max: nat, line: string, later: seq<string>)
    requires '\n' !in line && ByteLength(line) > max
    ensures Feed(parse, max, "", [line] + later).None?
  {
    assert "" + line == line;
    assert PushStep(parse, max, "", line) == (ThrewTooLong, line);
  }

  /** Whether a run throws does depend on the chunking: a frame over the cap
      passes in one piece and throws when its newline comes separately. */
  lemma ThrowingDependsOnChunking<V(!new)>(stringify: V -> string, parse: string -> Option<V>, max: nat, value: V)
    requires JsonLike(stringify, parse) && ByteLength(stringify(value)) > max
    ensures Feed(parse, max, "", [EncodeFrame(stringify, value)]) == Some(([value], ""))
    ensures Feed(parse, max, "", [stringify(value)] + ["\n"]).None?
  {
    OneWholeFramePasses(stringify, parse, max, value);
    UnfinishedLongLineThrows(parse, max, stringify(value), ["\n"]);
  }

  /** Cutting just before the newline of an oversized frame makes `push` throw. */
  lemma {:induction false} OversizeSplits<V(!new)>(stringify: V -> string, parse: string -> Option<V>, max: nat,
      values: seq<V>, i: nat)
    returns (chunks: seq<string>)
    requires JsonLike(stringify, parse) && i < |values| && ByteLength(stringify(values[i])) > max
    ensures Concat(chunks) == EncodeAll(stringify, values)
    ensures Feed(parse, max, "", chunks).None?
  {
    var s := stringify(values[i]);
    var before, after := EncodeAll(stringify, values[..i]), EncodeAll(stringify, values[i + 1..]);
    chunks := [before + s, "\n" + after];
    EncodeAllConcat(stringify, values[..i], values[i..]);
    assert values == values[..i] + values[i..];
    assert values[i..][1..] == values[i + 1..];
    assert Concat(chunks[1..]) == "\n" + after
        by { assert chunks[1..] == ["\n" + after] && ("\n" + after) + "" == "\n" + after; }
    assert (before + s) + ("\n" + after) == before + ((s + "\n") + after);
    EncodedLines(stringify, parse, values[..i]);
    LinesConcat(before, s);
    assert "" + s == s;
    SplitNone(s, '\n');
    assert Tail(before + s) == s;
    FeedReadsWholeText(parse, max, "", chunks);
    assert chunks[..1] == [before + s] && Concat([before + s]) == before + s
        by { assert (before + s) + "" == before + s; }
    assert "" + Concat(chunks[..1]) == before + s;
    assert !TailsFit(max, "", chunks);
  }

  lemma {:induction false} EncodeAllConcat<V>(stringify: V -> string, a: seq<V>, b: seq<V>)
    ensures EncodeAll(stringify, a + b) == EncodeAll(stringify, a) + EncodeAll(stringify, b)
  {
    if a == [] {
      assert a + b == b;
    } else {
      EncodeAllConcat(stringify, a[1..], b);
      assert (a + b)[1..] == a[1..] + b;
    }
  }

  /** A push that throws over a malformed line leaves exactly the text after that line,
      as the loop does; the next push goes on there. */
  lemma MalformedPush<V>(parse: string -> Option<V>, max: nat, buf: string, chunk: string) returns (k: nat)
    requires PushStep(parse, max, buf, chunk).0 == ThrewMalformed
    ensures var text := buf + chunk;
      && k < |Lines(text)| && DecodeLines(parse, Lines(text)[..k]).Some?
      && Trim(Lines(text)[k]) != "" && parse(Trim(Lines(text)[k])).None?
      && PushStep(parse, max, buf, chunk).1 == Join(Split(text, '\n')[k + 1..], "\n")
  {
    hide Lines, DecodeLines;
    k := MalformedLeavesTheRest(parse, buf + chunk);
  }
}
