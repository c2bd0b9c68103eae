/** `git status --porcelain=v1 -z` as the broker reads it (`repoDiff` and
    `discardSelection` in src/git-exec.ts). Git's reply is a parameter. */
module Porcelain {
  import opened Wrappers
  import opened JsText

  const NUL: char := '\0'

  // ---- entries as printed -------------------------------------------------

  /** One status entry; `orig` is the path a rename or copy came from. */
  datatype Entry = Entry(x: char, y: char, path: string, orig: Option<string>)

  predicate Renames(c: char) { c == 'R' || c == 'C' }

  predicate GoodName(s: string) { s != "" && NUL !in s }

  /** An entry prints its original path exactly when one of its two columns says
      rename or copy. */
  predicate GoodEntry(e: Entry) {
    && e.x != NUL && e.y != NUL && GoodName(e.path)
    && (e.orig.Some? <==> Renames(e.x) || Renames(e.y))
    && (e.orig.Some? ==> GoodName(e.orig.value))
  }

  function MainToken(e: Entry): string { [e.x, e.y, ' '] + e.path }

  function TokensOf(entries: seq<Entry>): seq<string> {
    if entries == [] then []
    else
      var e := entries[0];
      [MainToken(e)] + (if e.orig.Some? then [e.orig.value] else []) + TokensOf(entries[1..])
  }

  /** Every field ends in NUL. */
  function Print(tokens: seq<string>): string {
    if tokens == [] then "" else tokens[0] + [NUL] + Print(tokens[1..])
  }

  // ---- the two parsers ----------------------------------------------------

  function NonEmpty(parts: seq<string>): seq<string> {
    if parts == [] then [] else (if parts[0] != "" then [parts[0]] else []) + NonEmpty(parts[1..])
  }

  /** `text.split("\0").filter(Boolean)` */
  function Tokens(text: string): seq<string> {
    NonEmpty(Split(text, NUL))
  }

  /** The tokens taken as entries: after one whose first column says rename or
      copy, the next token is skipped. */
  function Walk(tokens: seq<string>): seq<string> {
    if tokens == [] then []
    else
      var skip := tokens[0] != "" && Renames(tokens[0][0]);
      [tokens[0]] + Walk(if skip && |tokens| > 1 then tokens[2..] else tokens[1..])
  }

  function Take(s: string, n: nat): string { if |s| < n then s else s[..n] }

  function From(s: string, n: nat): string { if |s| < n then "" else s[n..] }

  datatype Status = Status(path: string, state: string)

  function StateOf(xy: string): string {
    if xy == "??" then "?"
    else
      var t := Trim(xy);
      if t == "" then "M" else [t[0]]
  }

  function StatusOf(token: string): Status { Status(From(token, 3), StateOf(Take(token, 2))) }

  function StatusesOf(tokens: seq<string>): seq<Status> {
    if tokens == [] then [] else [StatusOf(tokens[0])] + StatusesOf(tokens[1..])
  }

  /** What is left of the tokens at index `i`, which a skip can push past the end. */
  function Left(tokens: seq<string>, i: nat): seq<string> {
    if i <= |tokens| then tokens[i..] else []
  }

  lemma WalkAt(tokens: seq<string>, i: nat)
    requires i < |tokens|
    ensures var skip := tokens[i] != "" && Renames(tokens[i][0]);
            Walk(Left(tokens, i)) == [tokens[i]] + Walk(Left(tokens, if skip then i + 2 else i + 1))
  {
    var here := tokens[i..];
    assert here[0] == tokens[i] && here[1..] == tokens[i + 1..];
    assert |here| > 1 ==> here[2..] == tokens[i + 2..];
  }

  lemma StatusesCons(token: string, rest: seq<string>)
    ensures StatusesOf([token] + rest) == [StatusOf(token)] + StatusesOf(rest)
  {
    assert ([token] + rest)[1..] == rest;
  }

  /** The statuses found so far are right for the tokens before index `i`. */
  ghost predicate ReadSoFar(found: seq<Status>, tokens: seq<string>, i: nat) {
    found + StatusesOf(Walk(Left(tokens, i))) == StatusesOf(Walk(tokens))
  }

  function After(token: string, i: nat): nat {
    if token != "" && Renames(token[0]) then i + 2 else i + 1
  }

  lemma ReadOne(found: seq<Status>, tokens: seq<string>, i: nat)
    requires i < |tokens| && ReadSoFar(found, tokens, i)
    ensures ReadSoFar(found + [StatusOf(tokens[i])], tokens, After(tokens[i], i))
  {
    hide Walk, StatusesOf, StatusOf, Left;
    WalkAt(tokens, i);
    var later := Walk(Left(tokens, After(tokens[i], i)));
    StatusesCons(tokens[i], later);
    assert found + ([StatusOf(tokens[i])] + StatusesOf(later)) == (found + [StatusOf(tokens[i])]) + StatusesOf(later);
  }

  lemma ReadNone(tokens: seq<string>)
    ensures ReadSoFar([], tokens, 0)
  {
    assert tokens[0..] == tokens;
    assert [] + StatusesOf(Walk(tokens)) == StatusesOf(Walk(tokens));
  }

  lemma ReadAll(found: seq<Status>, tokens: seq<string>, i: nat)
    requires i >= |tokens| && ReadSoFar(found, tokens, i)
    ensures found == StatusesOf(Walk(tokens))
  {
    assert Left(tokens, i) == [] && StatusesOf(Walk([])) == [];
  }

  lemma FirstColumn(token: string, i: nat)
    ensures var xy := Take(token, 2);
      After(token, i) == if xy != "" && (xy[0] == 'R' || xy[0] == 'C') then i + 2 else i + 1
  {
  }

  method ParseStatus(porcelain: string) returns (status: seq<Status>)
    ensures status == StatusesOf(Walk(Tokens(porcelain)))
  {
    hide *;
    var tokens := Tokens(porcelain);
    status := [];
    var i: nat := 0;
    ReadNone(tokens);
    while i < |tokens|
      invariant ReadSoFar(status, tokens, i)
      decreases |tokens| - i
    {
      var token := tokens[i];
      ReadOne(status, tokens, i);
      FirstColumn(token, i);
      var xy := Take(token, 2);
      StatusParts(token);
      status := status + [Status(From(token, 3), StateOf(xy))];
      if xy != "" && (xy[0] == 'R' || xy[0] == 'C') { i := i + 1; }
      i := i + 1;
    }
    ReadAll(status, tokens, i);
  }

  lemma StatusParts(token: string)
    ensures StatusOf(token) == Status(From(token, 3), StateOf(Take(token, 2)))
  {
  }

  datatype Split3 = Split3(tracked: seq<string>, untracked: seq<string>)

  function Both(a: Split3, b: Split3): Split3 {
    Split3(a.tracked + b.tracked, a.untracked + b.untracked)
  }

  function PathOf(token: string): Split3 {
    if Take(token, 2) == "??" then Split3([], [From(token, 3)]) else Split3([From(token, 3)], [])
  }

  /** Tracked and untracked paths of a token list, in order. */
  function PathsOf(tokens: seq<string>): Split3 {
    if tokens == [] then Split3([], []) else Both(PathOf(tokens[0]), PathsOf(tokens[1..]))
  }

  /** `p.replace(/\/?$/, "/")` */
  function AsDirectory(p: string): string {
    if p != "" && p[|p| - 1] == '/' then p else p + "/"
  }

  predicate InScope(file: string, paths: Option<seq<string>>) {
    paths.None? || exists p <- paths.value :: file == p || StartsWith(file, AsDirectory(p))
  }

  function Scoped(files: seq<string>, paths: Option<seq<string>>): seq<string> {
    if files == [] then []
    else (if InScope(files[0], paths) then [files[0]] else []) + Scoped(files[1..], paths)
  }

  /** What a discard covers. */
  function Selection(porcelain: string, paths: Option<seq<string>>, untracked: bool): Split3 {
    var all := PathsOf(Walk(Tokens(porcelain)));
    Split3(Sort(Scoped(all.tracked, paths)), Sort(if untracked then Scoped(all.untracked, paths) else []))
  }

  lemma BothAssociative(a: Split3, b: Split3, c: Split3)
    ensures Both(a, Both(b, c)) == Both(Both(a, b), c)
  {
    assert a.tracked + (b.tracked + c.tracked) == (a.tracked + b.tracked) + c.tracked;
    assert a.untracked + (b.untracked + c.untracked) == (a.untracked + b.untracked) + c.untracked;
  }

  lemma BothPush(found: Split3, token: string)
    ensures Both(found, PathOf(token)) ==
            if Take(token, 2) == "??" then Split3(found.tracked, found.untracked + [From(token, 3)])
            else Split3(found.tracked + [From(token, 3)], found.untracked)
  {
    assert found.tracked + [] == found.tracked && found.untracked + [] == found.untracked;
  }

  /** One round of the loop below. */
  lemma PathsAt(found: Split3, tokens: seq<string>, i: nat)
    requires i < |tokens|
    ensures var skip, path := tokens[i] != "" && Renames(tokens[i][0]), From(tokens[i], 3);
            var next := if Take(tokens[i], 2) == "??" then Split3(found.tracked, found.untracked + [path])
                        else Split3(found.tracked + [path], found.untracked);
            Both(found, PathsOf(Walk(Left(tokens, i)))) ==
              Both(next, PathsOf(Walk(Left(tokens, if skip then i + 2 else i + 1))))
  {
    var skip, one := tokens[i] != "" && Renames(tokens[i][0]), PathOf(tokens[i]);
    var later := Walk(Left(tokens, if skip then i + 2 else i + 1));
    WalkAt(tokens, i);
    assert ([tokens[i]] + later)[1..] == later;
    assert PathsOf(Walk(Left(tokens, i))) == Both(one, PathsOf(later));
    BothAssociative(found, one, PathsOf(later));
    BothPush(found, tokens[i]);
  }

  lemma PathsEnds(found: Split3, tokens: seq<string>, i: nat)
    ensures i == 0 && found == Split3([], []) ==> Both(found, PathsOf(Walk(Left(tokens, i)))) == PathsOf(Walk(tokens))
    ensures i >= |tokens| ==> Both(found, PathsOf(Walk(Left(tokens, i)))) == found
  {
    var all := PathsOf(Walk(tokens));
    assert [] + all.tracked == all.tracked && [] + all.untracked == all.untracked;
    assert found.tracked + [] == found.tracked && found.untracked + [] == found.untracked;
    assert Left(tokens, 0) == tokens;
  }

  /** The paths found so far are right for the tokens before index `i`. */
  ghost predicate FoundSoFar(found: Split3, tokens: seq<string>, i: nat) {
    Both(found, PathsOf(Walk(Left(tokens, i)))) == PathsOf(Walk(tokens))
  }

  lemma FoundOne(found: Split3, tokens: seq<string>, i: nat)
    requires i < |tokens| && FoundSoFar(found, tokens, i)
    ensures FoundSoFar(Both(found, PathOf(tokens[i])), tokens, After(tokens[i], i))
  {
    hide Walk, Left, PathsOf, Both, PathOf;
    PathsAt(found, tokens, i);
    BothPush(found, tokens[i]);
  }

  lemma FoundNone(tokens: seq<string>)
    ensures FoundSoFar(Split3([], []), tokens, 0)
  {
    PathsEnds(Split3([], []), tokens, 0);
  }

  lemma FoundAll(found: Split3, tokens: seq<string>, i: nat)
    requires i >= |tokens| && FoundSoFar(found, tokens, i)
    ensures found == PathsOf(Walk(tokens))
  {
    PathsEnds(found, tokens, i);
  }

  method DiscardSelection(porcelain: string, paths: Option<seq<string>>, untracked: bool) returns (r: Split3)
    ensures r == Selection(porcelain, paths, untracked)
  {
    var found := AllPaths(Tokens(porcelain));
    return Split3(Sort(Scoped(found.tracked, paths)), Sort(if untracked then Scoped(found.untracked, paths) else []));
  }

  method AllPaths(tokens: seq<string>) returns (found: Split3)
    ensures found == PathsOf(Walk(tokens))
  {
    hide *;
    found := Split3([], []);
    var i: nat := 0;
    FoundNone(tokens);
    while i < |tokens|
      invariant FoundSoFar(found, tokens, i)
      decreases |tokens| - i
    {
      var token := tokens[i];
      FoundOne(found, tokens, i);
      FirstColumn(token, i);
      BothPush(found, token);
      var xy, path := Take(token, 2), From(token, 3);
      if xy != "" && (xy[0] == 'R' || xy[0] == 'C') { i := i + 1; }
      if xy == "??" {
        found := Split3(found.tracked, found.untracked + [path]);
      } else {
        found := Split3(found.tracked + [path], found.untracked);
      }
      i := i + 1;
    }
    FoundAll(found, tokens, i);
  }

  // ---- what was printed is what is read -----------------------------------

  lemma NonEmptyCons(part: string, rest: seq<string>)
    ensures NonEmpty([part] + rest) == (if part != "" then [part] else []) + NonEmpty(rest)
  {
    assert ([part] + rest)[1..] == rest;
  }

  lemma {:induction false} NonEmptyConcat(a: seq<string>, b: seq<string>)
    ensures NonEmpty(a + b) == NonEmpty(a) + NonEmpty(b)
  {
    if a == [] {
      assert a + b == b && [] + NonEmpty(b) == NonEmpty(b);
    } else {
      var part, rest := a[0], a[1..];
      NonEmptyConcat(rest, b);
      NonEmptyCons(part, rest);
      NonEmptyCons(part, rest + b);
      hide NonEmpty;
      assert [part] + rest == a && [part] + (rest + b) == a + b;
      Regroup(if part != "" then [part] else [], NonEmpty(rest), NonEmpty(b));
    }
  }

  lemma {:induction false} PrintedTokens(tokens: seq<string>)
    requires forall t <- tokens :: GoodName(t)
    ensures Tokens(Print(tokens)) == tokens
  {
    if tokens == [] {
      assert Split("", NUL) == [""] && NonEmpty([""][1..]) == [];
    } else {
      PrintedTokens(tokens[1..]);
      assert tokens[0] in tokens;
      SplitAtSeparator(tokens[0], NUL, Print(tokens[1..]));
      SplitNone(tokens[0], NUL);
      NonEmptyConcat([tokens[0]], Split(Print(tokens[1..]), NUL));
      assert [tokens[0]][1..] == [] && NonEmpty([tokens[0]]) == [tokens[0]] + NonEmpty([]);
    }
  }

  ghost predicate GoodEntries(entries: seq<Entry>) {
    forall e <- entries :: GoodEntry(e)
  }

  lemma {:induction false} TokensAreGood(entries: seq<Entry>)
    requires GoodEntries(entries)
    ensures forall t <- TokensOf(entries) :: GoodName(t)
  {
    if entries != [] {
      TokensAreGood(entries[1..]);
      assert GoodEntry(entries[0]);
    }
  }

  function ViewsOf(entries: seq<Entry>): seq<Status> {
    if entries == [] then []
    else [Status(entries[0].path, StateOf([entries[0].x, entries[0].y]))] + ViewsOf(entries[1..])
  }

  lemma {:induction false} ViewsLength(entries: seq<Entry>)
    ensures |ViewsOf(entries)| == |entries|
  {
    if entries != [] { ViewsLength(entries[1..]); }
  }

  lemma {:induction false} StatusesLength(tokens: seq<string>)
    ensures |StatusesOf(tokens)| == |tokens|
  {
    if tokens != [] { StatusesLength(tokens[1..]); }
  }

  lemma MainReads(e: Entry)
    ensures StatusOf(MainToken(e)) == Status(e.path, StateOf([e.x, e.y]))
  {
    assert MainToken(e)[..2] == [e.x, e.y];
  }

  /** A rename or copy marked only in the second column: its original path is
      printed but not skipped. */
  predicate HiddenRename(e: Entry) { Renames(e.y) && !Renames(e.x) }

  lemma StateIsRename(xy: string)
    requires 1 <= |xy| <= 2
    ensures Renames(xy[0]) ==> StateOf(xy) == [xy[0]]
    ensures (forall c <- xy :: !Renames(c)) ==> StateOf(xy) != "R" && StateOf(xy) != "C"
  {
    TrimIsPart(xy);
    assert Trim(xy) != "" ==> Trim(xy)[0] in xy;
    if Renames(xy[0]) {
      assert TrimStart(xy) == xy;
      TrimEndKeepsFirst(xy);
    }
  }

  lemma {:induction false} TrimIsPart(s: string)
    ensures forall c <- Trim(s) :: c in s
  {
    TrimStartIsPart(s);
    TrimEndIsPart(TrimStart(s));
  }

  lemma {:induction false} TrimStartIsPart(s: string)
    ensures forall c <- TrimStart(s) :: c in s
  {
    if s != "" && IsSpace(s[0]) { TrimStartIsPart(s[1..]); }
  }

  lemma {:induction false} TrimEndIsPart(s: string)
    ensures forall c <- TrimEnd(s) :: c in s
  {
    if s != "" && IsSpace(s[|s| - 1]) { TrimEndIsPart(s[..|s| - 1]); }
  }

  lemma {:induction false} TrimEndKeepsFirst(s: string)
    requires s != "" && !IsSpace(s[0])
    ensures TrimEnd(s) != "" && TrimEnd(s)[0] == s[0]
  {
    if IsSpace(s[|s| - 1]) { TrimEndKeepsFirst(s[..|s| - 1]); }
  }

  lemma {:induction false} WalkNeverLoses(entries: seq<Entry>)
    requires GoodEntries(entries)
    ensures |Walk(TokensOf(entries))| >= |entries|
    decreases |entries|, 0
  {
    if entries != [] {
      var e, rest := entries[0], entries[1..];
      assert GoodEntry(e);
      WalkFirst(entries);
      WalkNeverLoses(rest);
      if HiddenRename(e) { WalkAstray(e.orig.value, rest); }
    }
  }

  /** One entry's tokens at the head of a walk. */
  lemma WalkFirst(entries: seq<Entry>)
    requires entries != [] && GoodEntry(entries[0])
    ensures var e, later := entries[0], TokensOf(entries[1..]);
            Walk(TokensOf(entries)) == [MainToken(e)] + Walk(if HiddenRename(e) then [e.orig.value] + later else later)
  {
    var e, later := entries[0], TokensOf(entries[1..]);
    var all := TokensOf(entries);
    assert all[0] == MainToken(e) && MainToken(e)[0] == e.x;
    if e.orig.Some? {
      assert all == [MainToken(e), e.orig.value] + later;
      assert all[2..] == later && all[1..] == [e.orig.value] + later;
    } else {
      assert all[1..] == later;
    }
  }

  /** After a stray original path the walk reads at least as many items as there
      are entries left, and never exactly those entries. */
  lemma {:induction false} WalkAstray(stray: string, rest: seq<Entry>)
    requires stray != "" && GoodEntries(rest)
    ensures |Walk([stray] + TokensOf(rest))| >= |rest|
    ensures StatusesOf(Walk([stray] + TokensOf(rest))) != ViewsOf(rest)
    decreases |rest|, 1
  {
    var walked := Walk(AfterStray(stray, rest));
    WalkStray(stray, rest);
    ViewsLength(rest);
    StatusesLength([stray] + walked);
    StatusesCons(stray, walked);
    if !Renames(stray[0]) {
      WalkNeverLoses(rest);
    } else if rest != [] {
      var c, later := rest[0], rest[1..];
      assert GoodEntry(c);
      if c.orig.Some? {
        WalkAstray(c.orig.value, later);
        assert StatusesOf([stray] + walked)[1..] == StatusesOf(walked);
        assert ViewsOf(rest)[1..] == ViewsOf(later);
      } else {
        WalkNeverLoses(later);
        StrayState(stray, c);
        assert StatusesOf([stray] + walked)[0] == StatusOf(stray);
        assert ViewsOf(rest)[0].state == StateOf([c.x, c.y]);
      }
    }
  }

  /** A stray rename shows a state that no entry without an original path has. */
  lemma StrayState(stray: string, c: Entry)
    requires stray != "" && Renames(stray[0]) && GoodEntry(c) && c.orig.None?
    ensures StatusOf(stray).state != StateOf([c.x, c.y])
  {
    StateIsRename(Take(stray, 2));
    StateIsRename([c.x, c.y]);
    assert Take(stray, 2)[0] == stray[0];
    assert forall k <- [c.x, c.y] :: !Renames(k);
  }

  /** The status list recovers the printed entries exactly when no rename or copy
      is marked in the second column only. */
  lemma {:induction false} StatusRecoveredIff(entries: seq<Entry>)
    requires GoodEntries(entries)
    ensures StatusesOf(Walk(TokensOf(entries))) == ViewsOf(entries) <==> forall e <- entries :: !HiddenRename(e)
  {
    if entries != [] {
      var e, rest := entries[0], entries[1..];
      assert entries == [e] + rest && GoodEntry(e);
      WalkFirst(entries);
      MainReads(e);
      var walked := Walk(if HiddenRename(e) then [e.orig.value] + TokensOf(rest) else TokensOf(rest));
      assert ([MainToken(e)] + walked)[1..] == walked;
      assert StatusesOf(Walk(TokensOf(entries)))[1..] == StatusesOf(walked);
      assert ViewsOf(entries)[1..] == ViewsOf(rest);
      if HiddenRename(e) {
        WalkAstray(e.orig.value, rest);
        assert e in entries;
      } else {
        StatusRecoveredIff(rest);
      }
    }
  }

  /** PARSING UNDOES PRINTING, in text. */
  lemma PrintedStatusReadsBack(entries: seq<Entry>)
    requires GoodEntries(entries)
    ensures StatusesOf(Walk(Tokens(Print(TokensOf(entries))))) == ViewsOf(entries) <==>
            forall e <- entries :: !HiddenRename(e)
  {
    TokensAreGood(entries);
    PrintedTokens(TokensOf(entries));
    StatusRecoveredIff(entries);
  }

  /** What a parser should take for the entries. */
  function MainTokens(entries: seq<Entry>): seq<string> {
    if entries == [] then [] else [MainToken(entries[0])] + MainTokens(entries[1..])
  }

  lemma {:induction false} MainTokensRead(entries: seq<Entry>)
    ensures StatusesOf(MainTokens(entries)) == ViewsOf(entries) && PathsOf(MainTokens(entries)) == EntryPaths(entries)
  {
    if entries != [] {
      MainTokensRead(entries[1..]);
      MainReads(entries[0]);
      MainPath(entries[0]);
      assert ([MainToken(entries[0])] + MainTokens(entries[1..]))[1..] == MainTokens(entries[1..]);
    }
  }

  lemma {:induction false} WalkReadsMain(entries: seq<Entry>)
    requires GoodEntries(entries) && forall e <- entries :: !HiddenRename(e)
    ensures Walk(TokensOf(entries)) == MainTokens(entries)
  {
    if entries != [] {
      assert entries[0] in entries;
      WalkFirst(entries);
      WalkReadsMain(entries[1..]);
    }
  }

  /** THE SHARED WALK. Both parsers take exactly the printed entries for entries if
      and only if no rename or copy is marked in the second column only. */
  lemma WalkReadsEntriesIff(entries: seq<Entry>)
    requires GoodEntries(entries)
    ensures Walk(TokensOf(entries)) == MainTokens(entries) <==> forall e <- entries :: !HiddenRename(e)
  {
    MainTokensRead(entries);
    StatusRecoveredIff(entries);
    if forall e <- entries :: !HiddenRename(e) { WalkReadsMain(entries); }
  }

  function EntryPaths(entries: seq<Entry>): Split3 {
    if entries == [] then Split3([], [])
    else Both(EntryPath(entries[0]), EntryPaths(entries[1..]))
  }

  predicate Untracked(e: Entry) { e.x == '?' && e.y == '?' }

  function EntryPath(e: Entry): Split3 {
    if Untracked(e) then Split3([], [e.path]) else Split3([e.path], [])
  }

  lemma MainPath(e: Entry)
    ensures PathOf(MainToken(e)) == EntryPath(e)
  {
    assert MainToken(e)[..2] == [e.x, e.y];
  }

  // ---- when the discard is right all the same -----------------------------

  /** Every stray original path happens to stand in for the entry it makes the walk
      skip: it starts like a rename, and goes on from its fourth character with
      that entry's own path. */
  predicate Covered(entries: seq<Entry>)
    decreases |entries|, 0
  {
    entries == [] ||
    if HiddenRename(entries[0]) then entries[0].orig.Some? && StandsIn(entries[0].orig.value, entries[1..])
    else Covered(entries[1..])
  }

  predicate StandsIn(stray: string, entries: seq<Entry>)
    decreases |entries|, 1
  {
    && stray != "" && Renames(stray[0]) && entries != []
    && !Untracked(entries[0]) && From(stray, 3) == entries[0].path
    && if entries[0].orig.Some? then StandsIn(entries[0].orig.value, entries[1..]) else Covered(entries[1..])
  }

  lemma {:induction false} PathsCount(tokens: seq<string>)
    ensures |PathsOf(tokens).tracked| + |PathsOf(tokens).untracked| == |tokens|
  {
    if tokens != [] { PathsCount(tokens[1..]); }
  }

  lemma {:induction false} EntriesCount(entries: seq<Entry>)
    ensures |EntryPaths(entries).tracked| + |EntryPaths(entries).untracked| == |entries|
  {
    if entries != [] { EntriesCount(entries[1..]); }
  }

  lemma PathsCons(token: string, rest: seq<string>)
    ensures PathsOf([token] + rest) == Both(PathOf(token), PathsOf(rest))
  {
    assert ([token] + rest)[1..] == rest;
  }

  /** The walk from a stray original path. */
  lemma WalkStray(stray: string, rest: seq<Entry>)
    requires stray != "" && GoodEntries(rest)
    ensures Walk([stray] + TokensOf(rest)) == [stray] + Walk(AfterStray(stray, rest))
  {
    hide Walk, TokensOf, MainToken;
    WalkCons(stray, TokensOf(rest));
    TokensCons(rest);
  }

  lemma TokensCons(entries: seq<Entry>)
    ensures TokensOf(entries) == [] <==> entries == []
    ensures entries == [] || TokensOf(entries)[1..] ==
      (if entries[0].orig.Some? then [entries[0].orig.value] + TokensOf(entries[1..]) else TokensOf(entries[1..]))
  {
  }

  lemma WalkCons(token: string, rest: seq<string>)
    requires token != ""
    ensures Walk([token] + rest) == [token] + Walk(if Renames(token[0]) && rest != [] then rest[1..] else rest)
  {
    var tokens := [token] + rest;
    assert tokens[1..] == rest && (rest != [] ==> tokens[2..] == rest[1..]);
  }

  function AfterStray(stray: string, rest: seq<Entry>): seq<string> {
    if stray == "" || !Renames(stray[0]) || rest == [] then TokensOf(rest)
    else if rest[0].orig.Some? then [rest[0].orig.value] + TokensOf(rest[1..])
    else TokensOf(rest[1..])
  }

  /** A walk that reads as many items as there are entries sees no more untracked
      paths than they have. */
  lemma {:induction false} NoNewUntracked(entries: seq<Entry>)
    requires GoodEntries(entries)
    ensures |Walk(TokensOf(entries))| == |entries| ==>
      |PathsOf(Walk(TokensOf(entries))).untracked| <= |EntryPaths(entries).untracked|
    decreases |entries|, 0
  {
    if entries != [] {
      var e, rest := entries[0], entries[1..];
      assert GoodEntry(e);
      WalkFirst(entries);
      MainPath(e);
      PathsCons(MainToken(e), Walk(if HiddenRename(e) then [e.orig.value] + TokensOf(rest) else TokensOf(rest)));
      if HiddenRename(e) { StrayNoNewUntracked(e.orig.value, rest); } else { NoNewUntracked(rest); }
    }
  }

  lemma {:induction false} StrayNoNewUntracked(stray: string, rest: seq<Entry>)
    requires stray != "" && GoodEntries(rest)
    ensures |Walk([stray] + TokensOf(rest))| == |rest| ==>
      |PathsOf(Walk([stray] + TokensOf(rest))).untracked| <= |EntryPaths(rest).untracked|
    decreases |rest|, 1
  {
    WalkStray(stray, rest);
    PathsCons(stray, Walk(AfterStray(stray, rest)));
    if !Renames(stray[0]) {
      WalkNeverLoses(rest);
    } else if rest != [] {
      assert GoodEntry(rest[0]);
      if rest[0].orig.Some? { StrayNoNewUntracked(rest[0].orig.value, rest[1..]); } else { NoNewUntracked(rest[1..]); }
    }
  }

  lemma BothCancels(a: Split3, x: Split3, y: Split3)
    ensures Both(a, x) == Both(a, y) <==> x == y
  {
    assert Both(a, x).tracked[|a.tracked|..] == x.tracked && Both(a, y).tracked[|a.tracked|..] == y.tracked;
    assert Both(a, x).untracked[|a.untracked|..] == x.untracked && Both(a, y).untracked[|a.untracked|..] == y.untracked;
  }

  /** The discard's paths are those of the printed entries exactly when every stray
      original path stands in for an entry; without a hidden rename there is none. */
  lemma {:induction false} SelectionReadsEntriesIff(entries: seq<Entry>)
    requires GoodEntries(entries)
    ensures PathsOf(Walk(TokensOf(entries))) == EntryPaths(entries) <==> Covered(entries)
    decreases |entries|, 0
  {
    if entries != [] {
      var e, rest := entries[0], entries[1..];
      assert GoodEntry(e);
      WalkFirst(entries);
      MainPath(e);
      var walked := Walk(if HiddenRename(e) then [e.orig.value] + TokensOf(rest) else TokensOf(rest));
      PathsCons(MainToken(e), walked);
      BothCancels(EntryPath(e), PathsOf(walked), EntryPaths(rest));
      if HiddenRename(e) { StrayReadsIff(e.orig.value, rest); } else { SelectionReadsEntriesIff(rest); }
    }
  }

  lemma {:induction false} StrayReadsIff(stray: string, rest: seq<Entry>)
    requires stray != "" && GoodEntries(rest)
    ensures PathsOf(Walk([stray] + TokensOf(rest))) == EntryPaths(rest) <==> StandsIn(stray, rest)
    decreases |rest|, 1
  {
    hide Walk, TokensOf, From, MainToken;
    var walked := Walk([stray] + TokensOf(rest));
    WalkStray(stray, rest);
    var after := Walk(AfterStray(stray, rest));
    PathsCons(stray, after);
    PathsCount(walked);
    EntriesCount(rest);
    if !Renames(stray[0]) {
      WalkNeverLoses(rest);
    } else if rest != [] {
      var c, later := rest[0], rest[1..];
      assert GoodEntry(c) && PathOf(stray) == Split3([From(stray, 3)], []);
      if c.orig.Some? { StrayReadsIff(c.orig.value, later); } else { SelectionReadsEntriesIff(later); }
      if Untracked(c) {
        NoNewUntracked(later);
        PathsCount(after);
        EntriesCount(later);
      } else {
        FirstTracked(From(stray, 3), PathsOf(after), c.path, EntryPaths(later));
      }
    }
  }

  lemma FirstTracked(p: string, x: Split3, q: string, y: Split3)
    ensures Both(Split3([p], []), x) == Both(Split3([q], []), y) <==> p == q && x == y
  {
    if p == q {
      BothCancels(Split3([p], []), x, y);
    } else {
      assert Both(Split3([p], []), x).tracked[0] == p && Both(Split3([q], []), y).tracked[0] == q;
    }
  }

  /** Without a hidden rename nothing is stray. */
  lemma {:induction false} NothingStray(entries: seq<Entry>)
    requires forall e <- entries :: !HiddenRename(e)
    ensures Covered(entries)
  {
    if entries != [] {
      assert entries[0] in entries;
      NothingStray(entries[1..]);
    }
  }

  /** The discard reads what git printed: its tracked and untracked paths are those
      of the entries, in order. */
  lemma SelectionReadsEntries(entries: seq<Entry>)
    requires GoodEntries(entries) && forall e <- entries :: !HiddenRename(e)
    ensures PathsOf(Walk(TokensOf(entries))) == EntryPaths(entries)
  {
    WalkReadsEntriesIff(entries);
    MainTokensRead(entries);
  }

  // ---- on the columns -----------------------------------------------------

  /** The state shown for an entry: a question mark if untracked, the first column if it
      says anything, else the second, and for neither an M. */
  lemma StateReads(x: char, y: char)
    ensures StateOf([x, y]) ==
      if x == '?' && y == '?' then "?" else if !IsSpace(x) then [x] else if !IsSpace(y) then [y] else "M"
  {
    var xy := [x, y];
    assert xy[1..] == [y] && xy[..1] == [x] && [y][1..] == [] && [x][..0] == [] && [y][..0] == [];
    assert TrimEnd([]) == [] && TrimStart([]) == [];
    assert TrimEnd([x]) == if IsSpace(x) then [] else [x];
    assert TrimEnd([y]) == if IsSpace(y) then [] else [y];
    assert TrimStart([y]) == if IsSpace(y) then [] else [y];
    assert TrimStart(xy) == if !IsSpace(x) then xy else TrimStart([y]);
    assert TrimEnd(xy) == if !IsSpace(y) then xy else TrimEnd([x]);
  }

  // ---- scopes -------------------------------------------------------------

  /** A file is in the scope of a path if it is that path or lies below it, with or
      without a slash at the path's end. */
  lemma ScopeReads(file: string, dir: string)
    requires dir == "" || dir[|dir| - 1] != '/'
    ensures InScope(file, Some([dir])) <==> file == dir || exists rest :: file == dir + "/" + rest
    ensures InScope(file, Some([dir + "/"])) <==> exists rest :: file == dir + "/" + rest
  {
    var below := dir + "/";
    assert below[|below| - 1] == '/';
    assert AsDirectory(dir) == below && AsDirectory(below) == below;
    if StartsWith(file, below) {
      assert file == below + file[|below|..];
    }
    forall rest | file == below + rest ensures StartsWith(file, below) {}
    assert file == below ==> file == below + "";
    assert dir in [dir] && below in [below];
  }

  /** Several paths cover what each of them does; no paths at all cover everything. */
  lemma ScopesAdd(file: string, one: seq<string>, two: seq<string>)
    ensures InScope(file, None)
    ensures InScope(file, Some(one + two)) <==> InScope(file, Some(one)) || InScope(file, Some(two))
    ensures !InScope(file, Some([]))
  {
    assert forall p :: p in one + two <==> p in one || p in two;
  }
}
