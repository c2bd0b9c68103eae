/** What a CLI's own session file says about the current turn
    (src/transcript.ts): the JSONL parsers of claude and codex, the tail read
    and the freshness rule. A row is reduced to the fields the parsers read;
    JSON.parse, Date.parse and UTF-8 decoding are parameters. */
module Transcript {
  import opened Wrappers
  import opened JsText

  /** One JSON object of the log. A field is None when it is absent or not of
      the type the parsers ask for. */
  datatype Row = Row(
    stopReason: Option<string>,
    rowType: Option<string>,
    payloadType: Option<string>,
    timestamp: Option<int>,
    toolResult: bool)

  /** JSON.parse of one line: None when it throws or yields no object. */
  type RowParser = string -> Option<Row>

  datatype State = Working | Blocked | Done
  datatype TranscriptState = TranscriptState(state: State, lastRecordAt: int)

  datatype Profile = Profile(done: set<string>, blocked: set<string>, running: set<string>)

  // ---- rows ---------------------------------------------------------------

  /** The row of one line: none for a blank or unparsable one. */
  function RowOf(parse: RowParser, line: string): seq<Row> {
    var t := Trim(line);
    if t != "" && parse(t).Some? then [parse(t).value] else []
  }

  function RowsOfLines(parse: RowParser, lines: seq<string>): seq<Row> {
    if lines == [] then [] else RowOf(parse, lines[0]) + RowsOfLines(parse, lines[1..])
  }

  function RowsOf(parse: RowParser, text: string): seq<Row> {
    RowsOfLines(parse, Split(text, '\n'))
  }

  lemma RowsCons(parse: RowParser, line: string, rest: seq<string>)
    ensures RowsOfLines(parse, [line] + rest) == RowOf(parse, line) + RowsOfLines(parse, rest)
  {
    assert ([line] + rest)[1..] == rest;
  }

  lemma {:induction false} RowsConcat(parse: RowParser, a: seq<string>, b: seq<string>)
    ensures RowsOfLines(parse, a + b) == RowsOfLines(parse, a) + RowsOfLines(parse, b)
  {
    if a == [] {
      assert a + b == b;
      assert [] + RowsOfLines(parse, b) == RowsOfLines(parse, b);
    } else {
      var line, rest := a[0], a[1..];
      RowsConcat(parse, rest, b);
      RowsCons(parse, line, rest);
      RowsCons(parse, line, rest + b);
      hide RowsOfLines, RowOf;
      assert [line] + rest == a && [line] + (rest + b) == a + b;
      Regroup(RowOf(parse, line), RowsOfLines(parse, rest), RowsOfLines(parse, b));
    }
  }

  method JsonLines(parse: RowParser, text: string) returns (rows: seq<Row>)
    ensures rows == RowsOf(parse, text)
  {
    var lines := Split(text, '\n');
    rows := [];
    for i := 0 to |lines|
      invariant rows == RowsOfLines(parse, lines[..i])
    {
      RowsConcat(parse, lines[..i], [lines[i]]);
      assert lines[..i + 1] == lines[..i] + [lines[i]];
      assert RowsOfLines(parse, [lines[i]]) == RowOf(parse, lines[i]) by {
        assert RowsOfLines(parse, []) == [] && RowOf(parse, lines[i]) + [] == RowOf(parse, lines[i]);
      }
      var t := Trim(lines[i]);
      if t == "" { continue; }
      var row := parse(t);
      if row.Some? { rows := rows + [row.value]; }
    }
    assert lines[..|lines|] == lines;
  }

  // ---- deciding rows ------------------------------------------------------

  /** A row settles claude's state when it carries a stop reason. */
  predicate ClaudeDecides(row: Row) {
    row.stopReason.Some? && row.stopReason.value != ""
  }

  predicate CodexDecides(profile: Profile, row: Row) {
    && row.rowType == Some("event_msg") && row.payloadType.Some? && row.payloadType.value != ""
    && row.payloadType.value in profile.done + profile.blocked + profile.running
  }

  /** Row `i` is the newest one `decides` accepts. */
  ghost predicate Newest(rows: seq<Row>, decides: Row -> bool, i: nat) {
    i < |rows| && decides(rows[i]) && forall j :: i < j < |rows| ==> !decides(rows[j])
  }

  ghost predicate NoneFrom(rows: seq<Row>, decides: Row -> bool, i: nat) {
    forall j :: i <= j < |rows| ==> !decides(rows[j])
  }

  lemma OneMoreSilent(rows: seq<Row>, decides: Row -> bool, i: nat)
    requires i < |rows| && NoneFrom(rows, decides, i + 1) && !decides(rows[i])
    ensures NoneFrom(rows, decides, i)
  {
  }

  ghost predicate Silent(rows: seq<Row>, decides: Row -> bool) {
    forall row <- rows :: !decides(row)
  }

  function MaxTimestamp(rows: seq<Row>): int {
    if rows == [] then 0
    else
      var before, t := MaxTimestamp(rows[..|rows| - 1]), rows[|rows| - 1].timestamp;
      if t.Some? && t.value > before then t.value else before
  }

  /** What row `i` of a claude log says. */
  function ClaudeAt(profile: Profile, rows: seq<Row>, i: nat): Option<TranscriptState>
    requires i < |rows| && ClaudeDecides(rows[i])
  {
    var reason, at := rows[i].stopReason.value, rows[i].timestamp;
    if at.None? then None
    else if reason in profile.done then Some(TranscriptState(Done, at.value))
    else if reason in profile.blocked && !(exists r <- rows[i + 1..] :: r.toolResult) then
      Some(TranscriptState(Blocked, at.value))
    else Some(TranscriptState(Working, at.value))
  }

  function CodexAt(profile: Profile, row: Row): Option<TranscriptState>
    requires CodexDecides(profile, row)
  {
    var kind, at := row.payloadType.value, row.timestamp;
    if at.None? then None
    else if kind in profile.done then Some(TranscriptState(Done, at.value))
    else if kind in profile.blocked then Some(TranscriptState(Blocked, at.value))
    else Some(TranscriptState(Working, at.value))
  }

  /** `t` is what a claude log says: the newest deciding row's word, or "working"
      at the newest timestamp while nothing has decided. */
  ghost predicate ClaudeSays(profile: Profile, rows: seq<Row>, t: Option<TranscriptState>) {
    && (forall i: nat :: Newest(rows, ClaudeDecides, i) ==> t == ClaudeAt(profile, rows, i))
    && (Silent(rows, ClaudeDecides) ==>
          t == if MaxTimestamp(rows) == 0 then None else Some(TranscriptState(Working, MaxTimestamp(rows))))
  }

  ghost predicate CodexSays(profile: Profile, rows: seq<Row>, t: Option<TranscriptState>) {
    var decides := (row: Row) => CodexDecides(profile, row);
    && (forall i: nat :: Newest(rows, decides, i) ==> t == CodexAt(profile, rows[i]))
    && (Silent(rows, decides) ==> t == None)
  }

  lemma NewestIsUnique(rows: seq<Row>, decides: Row -> bool, i: nat, j: nat)
    requires Newest(rows, decides, i) && Newest(rows, decides, j)
    ensures i == j && !Silent(rows, decides)
  {
    assert rows[i] in rows;
  }

  lemma ClaudeSettled(profile: Profile, rows: seq<Row>, i: nat)
    requires Newest(rows, ClaudeDecides, i)
    ensures ClaudeSays(profile, rows, ClaudeAt(profile, rows, i))
  {
    NewestIsUnique(rows, ClaudeDecides, i, i);
    forall j: nat | Newest(rows, ClaudeDecides, j) ensures j == i {
      NewestIsUnique(rows, ClaudeDecides, i, j);
    }
  }

  lemma CodexSettled(profile: Profile, rows: seq<Row>, i: nat)
    requires i < |rows| && CodexDecides(profile, rows[i])
    requires forall j :: i < j < |rows| ==> !CodexDecides(profile, rows[j])
    ensures CodexSays(profile, rows, CodexAt(profile, rows[i]))
  {
    var decides := (row: Row) => CodexDecides(profile, row);
    NewestIsUnique(rows, decides, i, i);
    forall j: nat | Newest(rows, decides, j) ensures j == i {
      NewestIsUnique(rows, decides, i, j);
    }
  }

  method ParseClaude(parse: RowParser, text: string, profile: Profile) returns (t: Option<TranscriptState>)
    ensures ClaudeSays(profile, RowsOf(parse, text), t)
  {
    var rows := JsonLines(parse, text);
    if |rows| == 0 { return None; }
    var i := |rows|;
    while i > 0
      invariant 0 <= i <= |rows| && NoneFrom(rows, ClaudeDecides, i)
    {
      i := i - 1;
      if !ClaudeDecides(rows[i]) {
        OneMoreSilent(rows, ClaudeDecides, i);
        continue;
      }
      ClaudeSettled(profile, rows, i);
      var at := rows[i].timestamp;
      if at.None? { return None; }
      if rows[i].stopReason.value in profile.done { return Some(TranscriptState(Done, at.value)); }
      if rows[i].stopReason.value in profile.blocked {
        var answered := exists r <- rows[i + 1..] :: r.toolResult;
        return Some(TranscriptState(if answered then Working else Blocked, at.value));
      }
      return Some(TranscriptState(Working, at.value));
    }
    var newest := NewestTimestamp(rows);
    if newest == 0 { return None; }
    return Some(TranscriptState(Working, newest));
  }

  method NewestTimestamp(rows: seq<Row>) returns (newest: int)
    ensures newest == MaxTimestamp(rows)
  {
    newest := 0;
    for k := 0 to |rows|
      invariant newest == MaxTimestamp(rows[..k])
    {
      assert rows[..k + 1][..k] == rows[..k];
      var stamp := rows[k].timestamp;
      newest := if stamp.Some? && stamp.value > newest then stamp.value else newest;
    }
    assert rows[..|rows|] == rows;
  }

  method ParseCodex(parse: RowParser, text: string, profile: Profile) returns (t: Option<TranscriptState>)
    ensures CodexSays(profile, RowsOf(parse, text), t)
  {
    var rows := JsonLines(parse, text);
    ghost var decides := (row: Row) => CodexDecides(profile, row);
    if |rows| == 0 { return None; }
    var i := |rows|;
    while i > 0
      invariant 0 <= i <= |rows| && NoneFrom(rows, decides, i)
    {
      i := i - 1;
      if !CodexDecides(profile, rows[i]) {
        OneMoreSilent(rows, decides, i);
        continue;
      }
      CodexSettled(profile, rows, i);
      var kind := rows[i].payloadType;
      var at := rows[i].timestamp;
      if at.None? { return None; }
      if kind.value in profile.done { return Some(TranscriptState(Done, at.value)); }
      if kind.value in profile.blocked { return Some(TranscriptState(Blocked, at.value)); }
      return Some(TranscriptState(Working, at.value));
    }
    return None;
  }

  /** A log has a newest deciding row or none at all, so what it says is unique. */
  lemma {:induction false} NewestOrSilent(rows: seq<Row>, decides: Row -> bool) returns (i: nat)
    ensures Newest(rows, decides, i) || Silent(rows, decides)
  {
    i := 0;
    if rows != [] {
      var before, last := rows[..|rows| - 1], rows[|rows| - 1];
      assert rows == before + [last];
      if decides(last) {
        i := |rows| - 1;
      } else {
        i := NewestOrSilent(before, decides);
      }
    }
  }

  lemma ClaudeSaysOneThing(profile: Profile, rows: seq<Row>, t: Option<TranscriptState>, u: Option<TranscriptState>)
    requires ClaudeSays(profile, rows, t) && ClaudeSays(profile, rows, u)
    ensures t == u
  {
    var i := NewestOrSilent(rows, ClaudeDecides);
  }

  lemma CodexSaysOneThing(profile: Profile, rows: seq<Row>, t: Option<TranscriptState>, u: Option<TranscriptState>)
    requires CodexSays(profile, rows, t) && CodexSays(profile, rows, u)
    ensures t == u
  {
    var i := NewestOrSilent(rows, (row: Row) => CodexDecides(profile, row));
  }

  // ---- the tail -----------------------------------------------------------

  type Byte = b: int | 0 <= b < 256
  const NEWLINE: Byte := 10
  const TAIL_BYTES := 256 * 1024

  /** The decoder never lets a newline byte take part in another character, so a
      text is decoded line by line whatever bytes surround it. */
  ghost predicate LineDecoder(decode: seq<Byte> -> string) {
    forall a, b :: decode(a + [NEWLINE] + b) == decode(a) + "\n" + decode(b)
  }

  function TailStart(file: seq<Byte>): nat {
    if |file| > TAIL_BYTES then |file| - TAIL_BYTES else 0
  }

  /** A row that settles the state lies on a line that starts inside the tail. */
  ghost predicate DecidesInTail(parse: RowParser, decode: seq<Byte> -> string, file: seq<Byte>, decides: Row -> bool,
      q: nat) {
    && q < |file| && file[q] == NEWLINE && q + 1 >= TailStart(file)
    && !Silent(RowsOf(parse, decode(file[q + 1..])), decides)
  }

  lemma RowsAroundNewline(parse: RowParser, decode: seq<Byte> -> string, a: seq<Byte>, b: seq<Byte>)
    requires LineDecoder(decode)
    ensures RowsOf(parse, decode(a + [NEWLINE] + b)) == RowsOf(parse, decode(a)) + RowsOf(parse, decode(b))
  {
    SplitAtSeparator(decode(a), '\n', decode(b));
    RowsConcat(parse, Split(decode(a), '\n'), Split(decode(b), '\n'));
  }

  lemma RowsFrom(parse: RowParser, decode: seq<Byte> -> string, file: seq<Byte>, start: nat, q: nat)
    requires LineDecoder(decode) && start <= q < |file| && file[q] == NEWLINE
    ensures RowsOf(parse, decode(file[start..])) ==
        RowsOf(parse, decode(file[start..q])) + RowsOf(parse, decode(file[q + 1..]))
  {
    assert file[start..] == file[start..q] + [NEWLINE] + file[q + 1..];
    RowsAroundNewline(parse, decode, file[start..q], file[q + 1..]);
  }

  /** The whole file and its tail both end in the rows after the newline at `q`;
      what the cut first line parses to is anything. */
  lemma TailEndsTheSame(parse: RowParser, decode: seq<Byte> -> string, file: seq<Byte>, decides: Row -> bool, q: nat)
    returns (whole: seq<Row>, cut: seq<Row>)
    requires LineDecoder(decode) && DecidesInTail(parse, decode, file, decides, q)
    ensures var later := RowsOf(parse, decode(file[q + 1..]));
            && RowsOf(parse, decode(file)) == whole + later
            && RowsOf(parse, decode(file[TailStart(file)..])) == cut + later
  {
    hide RowsOf, Silent, LineDecoder;
    var start := TailStart(file);
    RowsFrom(parse, decode, file, 0, q);
    assert file[0..] == file;
    whole := RowsOf(parse, decode(file[0..q]));
    if q + 1 == start {
      cut := [];
      assert cut + RowsOf(parse, decode(file[q + 1..])) == RowsOf(parse, decode(file[q + 1..]));
    } else {
      RowsFrom(parse, decode, file, start, q);
      cut := RowsOf(parse, decode(file[start..q]));
    }
  }

  lemma NewestInSuffix(before: seq<Row>, later: seq<Row>, decides: Row -> bool, i: nat)
    requires Newest(later, decides, i)
    ensures Newest(before + later, decides, |before| + i)
  {
  }

  lemma ClaudeFromSuffix(profile: Profile, before: seq<Row>, later: seq<Row>, t: Option<TranscriptState>)
    requires !Silent(later, ClaudeDecides)
    ensures ClaudeSays(profile, before + later, t) <==> ClaudeSays(profile, later, t)
  {
    var i := NewestOrSilent(later, ClaudeDecides);
    var rows := before + later;
    NewestInSuffix(before, later, ClaudeDecides, i);
    assert rows[|before| + i + 1..] == later[i + 1..];
    assert ClaudeAt(profile, rows, |before| + i) == ClaudeAt(profile, later, i);
    assert rows[|before| + i] in rows;
    forall j: nat | Newest(rows, ClaudeDecides, j) ensures j == |before| + i {
    }
  }

  lemma CodexFromSuffix(profile: Profile, before: seq<Row>, later: seq<Row>, t: Option<TranscriptState>)
    requires !Silent(later, (row: Row) => CodexDecides(profile, row))
    ensures CodexSays(profile, before + later, t) <==> CodexSays(profile, later, t)
  {
    var decides := (row: Row) => CodexDecides(profile, row);
    var i := NewestOrSilent(later, decides);
    var rows := before + later;
    NewestInSuffix(before, later, decides, i);
    assert rows[|before| + i] == later[i] && rows[|before| + i] in rows;
    forall j: nat | Newest(rows, decides, j) ensures j == |before| + i {
    }
  }

  /** TAIL REFINES FULL. When a deciding row lies on a line that starts in the
      last 256 KiB, the tail says what the whole file says. */
  lemma ClaudeTailRefinesFull(parse: RowParser, decode: seq<Byte> -> string, profile: Profile, file: seq<Byte>, q: nat,
                              t: Option<TranscriptState>)
    requires LineDecoder(decode) && DecidesInTail(parse, decode, file, ClaudeDecides, q)
    ensures ClaudeSays(profile, RowsOf(parse, decode(file[TailStart(file)..])), t) <==>
            ClaudeSays(profile, RowsOf(parse, decode(file)), t)
  {
    var whole, cut := TailEndsTheSame(parse, decode, file, ClaudeDecides, q);
    var later := RowsOf(parse, decode(file[q + 1..]));
    ClaudeFromSuffix(profile, whole, later, t);
    ClaudeFromSuffix(profile, cut, later, t);
  }

  lemma CodexTailRefinesFull(parse: RowParser, decode: seq<Byte> -> string, profile: Profile, file: seq<Byte>, q: nat,
                             t: Option<TranscriptState>)
    requires LineDecoder(decode) && DecidesInTail(parse, decode, file, row => CodexDecides(profile, row), q)
    ensures CodexSays(profile, RowsOf(parse, decode(file[TailStart(file)..])), t) <==>
            CodexSays(profile, RowsOf(parse, decode(file)), t)
  {
    var decides := (row: Row) => CodexDecides(profile, row);
    var later := RowsOf(parse, decode(file[q + 1..]));
    assert !Silent(later, decides);
    var whole, cut := TailEndsTheSame(parse, decode, file, decides, q);
    CodexFromSuffix(profile, whole, later, t);
    CodexFromSuffix(profile, cut, later, t);
  }

  // ---- the decision -------------------------------------------------------

  datatype Status = SWorking | SBlocked | SIdle
  datatype Evidence = ByTranscript | ByStatus
  datatype Decision = Decision(status: Status, rawStatus: string, evidence: Evidence)
  datatype Tier = Tier(status: Status, rawStatus: Option<string>)

  function StatusText(s: Status): string {
    match s case SWorking => "working" case SBlocked => "blocked" case SIdle => "idle"
  }

  function DecideTurn(t: Option<TranscriptState>, tier: Tier, promptedAt: int): Decision {
    if t.Some? && t.value.lastRecordAt >= promptedAt then
      match t.value.state
      case Done => Decision(SIdle, "done", ByTranscript)
      case Working => Decision(SWorking, "working", ByTranscript)
      case Blocked => Decision(SBlocked, "blocked", ByTranscript)
    else
      Decision(tier.status, if tier.rawStatus.Some? then tier.rawStatus.value else StatusText(tier.status), ByStatus)
  }

  /** The turn is finished, and the transcript is the proof. */
  predicate ProvenDone(d: Decision) { d.evidence == ByTranscript && d.rawStatus == "done" }

  /** A STALE TURN IS NEVER PROOF. The decision is a transcript-proven `done`
      exactly when the newest deciding row is a done row stamped at or after the
      prompt. */
  lemma ClaudeProof(profile: Profile, rows: seq<Row>, t: Option<TranscriptState>, tier: Tier, promptedAt: int)
    requires ClaudeSays(profile, rows, t)
    ensures ProvenDone(DecideTurn(t, tier, promptedAt)) <==>
            exists i: nat :: Newest(rows, ClaudeDecides, i) && rows[i].stopReason.value in profile.done &&
                             rows[i].timestamp.Some? && rows[i].timestamp.value >= promptedAt
  {
    var i := NewestOrSilent(rows, ClaudeDecides);
  }

  lemma CodexProof(profile: Profile, rows: seq<Row>, t: Option<TranscriptState>, tier: Tier, promptedAt: int)
    requires CodexSays(profile, rows, t)
    ensures ProvenDone(DecideTurn(t, tier, promptedAt)) <==>
            exists i: nat :: Newest(rows, row => CodexDecides(profile, row), i) &&
                rows[i].payloadType.value in profile.done &&
                             rows[i].timestamp.Some? && rows[i].timestamp.value >= promptedAt
  {
    var decides := (row: Row) => CodexDecides(profile, row);
    var i := NewestOrSilent(rows, decides);
    if Newest(rows, decides, i) {
      assert Newest(rows, row => CodexDecides(profile, row), i);
    }
  }

  /** Rows without a deciding word never make a settled log look freshly
      confirmed: its timestamp and its `done` stand, and only a tool result can
      move a blocked turn on to working. */
  lemma ClaudeAppend(profile: Profile, rows: seq<Row>, more: seq<Row>, t: Option<TranscriptState>,
      u: Option<TranscriptState>)
    requires ClaudeSays(profile, rows, t) && ClaudeSays(profile, rows + more, u)
    requires !Silent(rows, ClaudeDecides) && Silent(more, ClaudeDecides)
    ensures u == if t.Some? && t.value.state == Blocked && exists r <- more :: r.toolResult
                 then Some(t.value.(state := Working)) else t
  {
    var i := NewestOrSilent(rows, ClaudeDecides);
    assert Newest(rows + more, ClaudeDecides, i);
    assert (rows + more)[i + 1..] == rows[i + 1..] + more;
    assert forall r :: r in rows[i + 1..] + more <==> r in rows[i + 1..] || r in more;
  }

  lemma CodexAppend(profile: Profile, rows: seq<Row>, more: seq<Row>, t: Option<TranscriptState>,
      u: Option<TranscriptState>)
    requires CodexSays(profile, rows, t) && CodexSays(profile, rows + more, u)
    requires Silent(more, row => CodexDecides(profile, row))
    ensures u == t
  {
    var decides := (row: Row) => CodexDecides(profile, row);
    var i := NewestOrSilent(rows, decides);
    if Newest(rows, decides, i) {
      assert Newest(rows + more, decides, i);
    } else {
      assert forall row <- rows + more :: row in rows || row in more;
      assert Silent(rows + more, decides);
    }
  }

  // ---- on the rows' own fields --------------------------------------------

  lemma NewestInTheMiddle(before: seq<Row>, row: Row, after: seq<Row>, decides: Row -> bool)
    requires decides(row) && forall r <- after :: !decides(r)
    ensures Newest(before + [row] + after, decides, |before|)
    ensures (before + [row] + after)[|before|] == row && (before + [row] + after)[|before| + 1..] == after
  {
    var rows := before + [row] + after;
    assert rows[|before| + 1..] == after;
    forall j | |before| < j < |rows| ensures !decides(rows[j]) {
      assert rows[j] == after[j - |before| - 1];
    }
  }

  /** A claude log is judged by its last row with a stop reason: done if the reason is a
      done word, blocked if it is a blocked word and no tool result has come since, else
      working, at the row's own time. */
  lemma ClaudeOnFields(profile: Profile, before: seq<Row>, row: Row, word: string, after: seq<Row>,
                       t: Option<TranscriptState>)
    requires row.stopReason == Some(word) && word != ""
    requires forall r <- after :: r.stopReason in {None, Some("")}
    requires ClaudeSays(profile, before + [row] + after, t)
    ensures t.Some? <==> row.timestamp.Some?
    ensures t.Some? ==> t.value.lastRecordAt == row.timestamp.value
    ensures t.Some? ==> (t.value.state == Done <==> word in profile.done)
    ensures t.Some? ==> (t.value.state == Blocked <==>
      word !in profile.done && word in profile.blocked && forall r <- after :: !r.toolResult)
  {
    NewestInTheMiddle(before, row, after, ClaudeDecides);
  }

  /** Without a row that has a stop reason it is working, at its newest time, if any row
      has one. */
  lemma ClaudeUndecided(profile: Profile, rows: seq<Row>, t: Option<TranscriptState>)
    requires (forall r <- rows :: r.stopReason in {None, Some("")}) && ClaudeSays(profile, rows, t)
    requires forall r <- rows :: r.timestamp.Some? ==> r.timestamp.value > 0
    ensures t.Some? <==> exists r <- rows :: r.timestamp.Some?
    ensures t.Some? ==> t.value.state == Working && exists r <- rows :: r.timestamp == Some(t.value.lastRecordAt)
    ensures t.Some? ==> forall r <- rows :: r.timestamp.Some? ==> r.timestamp.value <= t.value.lastRecordAt
  {
    MaxIsNewest(rows);
  }

  lemma {:induction false} MaxIsNewest(rows: seq<Row>)
    ensures MaxTimestamp(rows) >= 0
    ensures forall r <- rows :: r.timestamp.Some? ==> r.timestamp.value <= MaxTimestamp(rows)
    ensures MaxTimestamp(rows) > 0 ==> exists r <- rows :: r.timestamp == Some(MaxTimestamp(rows))
  {
    if rows != [] {
      var front, last := rows[..|rows| - 1], rows[|rows| - 1];
      assert rows == front + [last] && last in rows;
      MaxIsNewest(front);
    }
  }

  /** A codex log is judged by its last event row with one of the profile's words. */
  lemma CodexOnFields(profile: Profile, before: seq<Row>, row: Row, word: string, after: seq<Row>,
                      t: Option<TranscriptState>)
    requires row.rowType == Some("event_msg") && row.payloadType == Some(word) && word != ""
    requires word in profile.done || word in profile.blocked || word in profile.running
    requires forall r <- after ::
      || r.rowType != Some("event_msg") || r.payloadType in {None, Some("")}
      || r.payloadType.value !in profile.done + profile.blocked + profile.running
    requires CodexSays(profile, before + [row] + after, t)
    ensures t.Some? <==> row.timestamp.Some?
    ensures t.Some? ==> t.value.lastRecordAt == row.timestamp.value
    ensures t.Some? ==> (t.value.state == Done <==> word in profile.done)
    ensures t.Some? ==> (t.value.state == Blocked <==> word !in profile.done && word in profile.blocked)
  {
    var decides := (r: Row) => CodexDecides(profile, r);
    NewestInTheMiddle(before, row, after, decides);
  }

  /** Without such a row it says nothing. */
  lemma CodexUndecided(profile: Profile, rows: seq<Row>, t: Option<TranscriptState>)
    requires forall r <- rows ::
      || r.rowType != Some("event_msg") || r.payloadType in {None, Some("")}
      || r.payloadType.value !in profile.done + profile.blocked + profile.running
    requires CodexSays(profile, rows, t)
    ensures t == None
  {
  }

  /** The decision takes a turn's word while it is recent, and the recorded status
      otherwise; either way its status says whether the agent may still answer. */
  lemma DecisionReads(t: Option<TranscriptState>, tier: Tier, promptedAt: int)
    ensures var d, recent := DecideTurn(t, tier, promptedAt), t.Some? && t.value.lastRecordAt >= promptedAt;
      && (d.evidence == ByTranscript <==> recent)
      && (recent ==> (d.status == SIdle <==> t.value.state == Done))
      && (recent ==> (d.status == SBlocked <==> t.value.state == Blocked))
      && (recent ==> d.rawStatus == if t.value.state == Done then "done" else StatusText(d.status))
      && (!recent ==> d.status == tier.status)
      && (!recent ==> d.rawStatus == if tier.rawStatus.Some? then tier.rawStatus.value else StatusText(tier.status))
  {
  }

  /** The tail is the last 256 KiB of a file, or all of a smaller one. */
  lemma TailIsLast(file: seq<Byte>)
    ensures |file[TailStart(file)..]| == if |file| <= 262144 then |file| else 262144
  {
  }

  /** A line is read without the blanks around it; a blank line, and one that does not
      parse, is no row. */
  lemma LinesAreTrimmed(parse: RowParser, left: string, json: string, right: string)
    requires Blank(left) && Blank(right) && json != "" && !IsSpace(json[0]) && !IsSpace(json[|json| - 1])
    ensures RowOf(parse, left + json + right) == if parse(json).Some? then [parse(json).value] else []
    ensures RowOf(parse, left) == []
  {
    TrimsBlanks(left, json, right);
    BlankTrims(left);
  }
}
