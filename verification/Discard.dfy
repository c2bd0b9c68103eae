/** `repoDiscard` (src/git-exec.ts): without a confirm it previews, with one it
    acts only if HEAD and the file list still digest to it. Git's replies are the
    fields of a `Repo`; the digest is a parameter. */
module Discard {
  import opened Wrappers
  import opened JsText
  import opened Porcelain

  datatype Options = Options(paths: Option<seq<string>>, all: bool, untracked: bool, confirm: Option<string>)

  /** What `rev-parse HEAD`, `status --porcelain=v1 -z` and `ls-tree -r
      --name-only HEAD` answered during one call. */
  datatype Repo = Repo(revParse: string, porcelain: string, lsTree: string)

  /** The git commands an execution runs, in order. */
  datatype Command = Checkout(files: seq<string>) | RmCached(files: seq<string>) | Clean(files: seq<string>)

  datatype Outcome =
    | Preview(files: seq<string>, confirm: string)
    | Discarded(files: seq<string>, commands: seq<Command>)

  datatype DiscardError = BadRequest | StaleConfirm

  predicate PlainPath(p: string) {
    !StartsWith(p, "-") && !StartsWith(p, "/") && ".." !in Split(p, '/')
  }

  predicate WellAsked(opts: Options) {
    && (opts.all || (opts.paths.Some? && opts.paths.value != []))
    && (opts.paths.Some? ==> forall p <- opts.paths.value :: PlainPath(p))
  }

  function Head(repo: Repo): string { Trim(repo.revParse) }

  function Selected(repo: Repo, opts: Options): Split3 {
    Selection(repo.porcelain, opts.paths, opts.untracked)
  }

  function FilesOf(repo: Repo, opts: Options): seq<string> {
    Sort(Selected(repo, opts).tracked + Selected(repo, opts).untracked)
  }

  function InHead(repo: Repo): seq<string> { NonEmpty(Split(repo.lsTree, '\n')) }

  /** `files.filter((f) => known.has(f) == want)` */
  function Filter(files: seq<string>, known: seq<string>, want: bool): seq<string> {
    if files == [] then []
    else (if (files[0] in known) == want then [files[0]] else []) + Filter(files[1..], known, want)
  }

  /** The digested text: HEAD and the file list, NUL-separated. */
  function Encode(head: string, files: seq<string>): string {
    head + [NUL] + Join(files, [NUL])
  }

  function Unless(files: seq<string>, c: Command): seq<Command> {
    if files == [] then [] else [c]
  }

  function CommandsFor(repo: Repo, opts: Options): seq<Command> {
    var sel := Selected(repo, opts);
    var restorable, staged := Filter(sel.tracked, InHead(repo), true), Filter(sel.tracked, InHead(repo), false);
    Unless(restorable, Checkout(restorable)) + Unless(staged, RmCached(staged)) +
        Unless(sel.untracked, Clean(sel.untracked))
  }

  function RepoDiscard(repo: Repo, opts: Options, digest: string -> string): Result<Outcome, DiscardError> {
    if !WellAsked(opts) then Err(BadRequest)
    else
      var files := FilesOf(repo, opts);
      var confirm := digest(Encode(Head(repo), files));
      if opts.confirm.None? || opts.confirm.value == "" then Ok(Preview(files, confirm))
      else if opts.confirm.value != confirm then Err(StaleConfirm)
      else Ok(Discarded(files, CommandsFor(repo, opts)))
  }

  // ---- the encoding -------------------------------------------------------

  /** What the encoding tells of a list: nothing and one empty name look alike. */
  function Seen(files: seq<string>): seq<string> { if files == [] then [""] else files }

  lemma EncodeSplits(head: string, files: seq<string>)
    requires NUL !in head && forall f <- files :: NUL !in f
    ensures Split(Encode(head, files), NUL) == [head] + Seen(files)
  {
    SplitAtSeparator(head, NUL, Join(files, [NUL]));
    SplitNone(head, NUL);
    if files == [] {
      assert Split("", NUL) == [""];
    } else {
      SplitJoin(files, NUL);
    }
  }

  /** Different HEADs never digest the same text, and two lists do only if they are the
      same or are nothing and one empty name. */
  lemma EncodeInjective(head: string, files: seq<string>, head': string, files': seq<string>)
    requires NUL !in head && NUL !in head'
    requires (forall f <- files :: NUL !in f) && (forall f <- files' :: NUL !in f)
    ensures Encode(head, files) == Encode(head', files') <==> head == head' && Seen(files) == Seen(files')
  {
    EncodeSplits(head, files);
    EncodeSplits(head', files');
    var a, b := Seen(files), Seen(files');
    assert ([head] + a)[0] == head && ([head'] + b)[0] == head' && ([head] + a)[1..] == a && ([head'] + b)[1..] == b;
    if Seen(files) == Seen(files') && head == head' {
      assert files == [] || files' == [] || files == files';
      assert Join([""], [NUL]) == "" == Join([], [NUL]);
    }
  }

  // ---- names --------------------------------------------------------------

  lemma {:induction false} NonEmptyKeeps(parts: seq<string>)
    ensures forall p <- NonEmpty(parts) :: p in parts
  {
    if parts != [] { NonEmptyKeeps(parts[1..]); }
  }

  lemma {:induction false} WalkKeeps(tokens: seq<string>)
    ensures forall t <- Walk(tokens) :: t in tokens
  {
    if tokens != [] {
      var next := if tokens[0] != "" && Renames(tokens[0][0]) && |tokens| > 1 then tokens[2..] else tokens[1..];
      WalkKeeps(next);
      assert forall t <- next :: t in tokens;
    }
  }

  lemma {:induction false} PathsNulFree(tokens: seq<string>)
    requires forall t <- tokens :: NUL !in t
    ensures var p := PathsOf(tokens); forall f :: f in p.tracked || f in p.untracked ==> NUL !in f
  {
    if tokens != [] {
      assert tokens[0] in tokens && NUL !in From(tokens[0], 3);
      PathsNulFree(tokens[1..]);
    }
  }

  lemma {:induction false} ScopedKeeps(files: seq<string>, paths: Option<seq<string>>)
    ensures forall f :: f in Scoped(files, paths) <==> f in files && InScope(f, paths)
  {
    if files != [] {
      ScopedKeeps(files[1..], paths);
      assert files == [files[0]] + files[1..];
    }
  }

  lemma SortKeeps(files: seq<string>)
    ensures forall f :: f in Sort(files) <==> f in files
  {
    SortSorts(files);
    forall f ensures f in Sort(files) <==> f in files {
      assert f in multiset(Sort(files)) <==> f in multiset(files);
    }
  }

  /** No selected name holds a NUL. */
  lemma SelectedNulFree(repo: Repo, opts: Options)
    ensures forall f <- FilesOf(repo, opts) :: NUL !in f
  {
    var tokens := Tokens(repo.porcelain);
    NonEmptyKeeps(Split(repo.porcelain, NUL));
    WalkKeeps(tokens);
    PathsNulFree(Walk(tokens));
    var all, sel := PathsOf(Walk(tokens)), Selected(repo, opts);
    var loose := if opts.untracked then Scoped(all.untracked, opts.paths) else [];
    ScopedKeeps(all.tracked, opts.paths);
    ScopedKeeps(all.untracked, opts.paths);
    SortKeeps(Scoped(all.tracked, opts.paths));
    SortKeeps(loose);
    SortKeeps(sel.tracked + sel.untracked);
  }

  // ---- what is discarded --------------------------------------------------

  ghost predicate CollisionFree(digest: string -> string) {
    forall a, b :: digest(a) == digest(b) ==> a == b
  }

  /** THE CONFIRM BINDS HEAD AND THE NAMES. Under a collision-free digest, sending a
      preview's confirm executes exactly when HEAD is that of the preview and so is the
      list of names, an empty list and one empty name being the same here; any other
      tree refuses, and nothing is touched. */
  lemma ConfirmBinds(shown: Repo, asked: Options, now: Repo, opts: Options, digest: string -> string)
    requires CollisionFree(digest) && NUL !in Head(shown) && NUL !in Head(now)
    requires WellAsked(opts) && opts.confirm.Some? && opts.confirm.value != ""
    requires RepoDiscard(shown, asked, digest) == Ok(Preview(FilesOf(shown, asked), opts.confirm.value))
    ensures var r := RepoDiscard(now, opts, digest);
            if Head(now) == Head(shown) && Seen(FilesOf(now, opts)) == Seen(FilesOf(shown, asked))
            then r == Ok(Discarded(FilesOf(now, opts), CommandsFor(now, opts)))
            else r == Err(StaleConfirm)
  {
    hide FilesOf, CommandsFor, Encode, Head, Seen;
    SelectedNulFree(shown, asked);
    SelectedNulFree(now, opts);
    EncodeInjective(Head(shown), FilesOf(shown, asked), Head(now), FilesOf(now, opts));
  }

  // ---- asking -------------------------------------------------------------

  /** What is refused as a bad request, in the caller's terms: no path and not all, or a
      path that starts with a dash or a slash or goes up a directory. */
  lemma BadRequestsAre(repo: Repo, opts: Options, digest: string -> string)
    ensures RepoDiscard(repo, opts, digest) == Err(BadRequest) <==>
      || (!opts.all && (opts.paths == None || opts.paths == Some([])))
      || (opts.paths.Some? && exists p <- opts.paths.value ::
            StartsWith(p, "-") || StartsWith(p, "/") || exists a, b :: PieceAt(p, '/', a, "..", b))
  {
    if opts.paths.Some? {
      forall p <- opts.paths.value
        ensures PlainPath(p) <==>
          !(StartsWith(p, "-") || StartsWith(p, "/") || exists a, b :: PieceAt(p, '/', a, "..", b))
      {
        if ".." in Split(p, '/') { var a, b := PieceFound(p, '/', ".."); }
        forall a, b | PieceAt(p, '/', a, "..", b) ensures ".." in Split(p, '/') { PieceSplits(p, '/', a, "..", b); }
      }
    }
  }

  /** Without a confirm nothing is touched, and the confirm that is shown, sent back over
      an unchanged tree, executes on the files that were shown. */
  lemma PreviewThenConfirm(repo: Repo, opts: Options, digest: string -> string)
    requires WellAsked(opts) && opts.confirm in {None, Some("")}
    ensures var r := RepoDiscard(repo, opts, digest);
      && r.Ok? && r.value.Preview? && r.value.files == FilesOf(repo, opts)
      && (r.value.confirm != "" ==>
            RepoDiscard(repo, opts.(confirm := Some(r.value.confirm)), digest) ==
              Ok(Discarded(r.value.files, CommandsFor(repo, opts))))
  {
    hide FilesOf, Encode;
    var confirm := digest(Encode(Head(repo), FilesOf(repo, opts)));
    var again := opts.(confirm := Some(confirm));
    assert FilesOf(repo, again) == FilesOf(repo, opts) && CommandsFor(repo, again) == CommandsFor(repo, opts) by {
      SameSelection(repo, opts, again);
    }
  }

  lemma SameSelection(repo: Repo, one: Options, two: Options)
    requires one.paths == two.paths && one.untracked == two.untracked
    ensures FilesOf(repo, one) == FilesOf(repo, two) && CommandsFor(repo, one) == CommandsFor(repo, two)
  {
  }

  // ---- git's own words ----------------------------------------------------

  predicate Word(s: string) { s != "" && forall c <- s :: !IsSpace(c) && c != NUL }

  lemma {:induction false} TrimsToWord(h: string)
    requires Word(h)
    ensures Trim(h + "\n") == h
  {
    var s := h + "\n";
    assert s[0] == h[0] && h[0] in h && TrimStart(s) == s;
    assert s[..|s| - 1] == h && s[|s| - 1] == '\n';
    assert h[|h| - 1] in h && TrimEnd(h) == h;
  }

  /** A file name as `ls-tree` prints it, a line each. */
  predicate LineName(s: string) { s != "" && '\n' !in s }

  function PrintLines(names: seq<string>): string {
    if names == [] then "" else names[0] + "\n" + PrintLines(names[1..])
  }

  lemma {:induction false} LinesRead(names: seq<string>)
    requires forall n <- names :: LineName(n)
    ensures NonEmpty(Split(PrintLines(names), '\n')) == names
  {
    if names == [] {
      assert Split("", '\n') == [""] && NonEmpty([""][1..]) == [];
    } else {
      var first, rest := names[0], names[1..];
      assert first in names && forall n <- rest :: n in names;
      LinesRead(rest);
      SplitAtSeparator(first, '\n', PrintLines(rest));
      SplitNone(first, '\n');
      NonEmptyCons(first, Split(PrintLines(rest), '\n'));
    }
  }

  /** In terms of what git prints: the confirm of a preview taken at commit `h` is stale
      at any other commit, and at `h` it executes exactly on the list of names shown. */
  lemma ConfirmBindsTheCommit(shown: Repo, asked: Options, now: Repo, opts: Options, digest: string -> string,
                              h: string, h': string)
    requires CollisionFree(digest) && Word(h) && Word(h') && shown.revParse == h + "\n" && now.revParse == h' + "\n"
    requires WellAsked(opts) && opts.confirm.Some? && opts.confirm.value != ""
    requires RepoDiscard(shown, asked, digest) == Ok(Preview(FilesOf(shown, asked), opts.confirm.value))
    ensures h != h' ==> RepoDiscard(now, opts, digest) == Err(StaleConfirm)
    ensures h == h' ==>
      (RepoDiscard(now, opts, digest).Ok? <==> Seen(FilesOf(now, opts)) == Seen(FilesOf(shown, asked)))
  {
    TrimsToWord(h);
    TrimsToWord(h');
    assert Head(shown) == h && Head(now) == h';
    assert NUL !in h && NUL !in h' by {
      assert forall c <- h :: c != NUL;
      assert forall c <- h' :: c != NUL;
    }
    ConfirmBinds(shown, asked, now, opts, digest);
  }

  /** Of a printed tree: a file is restored exactly when it is tracked and in the tree,
      unstaged when it is tracked and not, deleted when it is untracked. */
  lemma CommandsFollowTheTree(repo: Repo, opts: Options, names: seq<string>, f: string)
    requires (forall n <- names :: LineName(n)) && repo.lsTree == PrintLines(names)
    ensures var all, sel := CommandsFor(repo, opts), Selected(repo, opts);
      && ((exists c <- all :: c.Checkout? && f in c.files) <==> f in sel.tracked && f in names)
      && ((exists c <- all :: c.RmCached? && f in c.files) <==> f in sel.tracked && f !in names)
      && ((exists c <- all :: c.Clean? && f in c.files) <==> f in sel.untracked)
  {
    LinesRead(names);
    var sel := Selected(repo, opts);
    var a, b := Filter(sel.tracked, InHead(repo), true), Filter(sel.tracked, InHead(repo), false);
    FilterMembers(sel.tracked, InHead(repo), true);
    FilterMembers(sel.tracked, InHead(repo), false);
    CommandsHold(a, b, sel.untracked);
    hide Selected, Filter, Unless;
    assert f in a ==> Checkout(a) in CommandsFor(repo, opts);
    assert f in b ==> RmCached(b) in CommandsFor(repo, opts);
    assert f in sel.untracked ==> Clean(sel.untracked) in CommandsFor(repo, opts);
  }

  // ---- what the confirm does not bind -------------------------------------

  lemma {:induction false} FilterMembers(files: seq<string>, known: seq<string>, want: bool)
    ensures forall f :: f in Filter(files, known, want) <==> f in files && ((f in known) == want)
  {
    if files != [] {
      FilterMembers(files[1..], known, want);
      assert files == [files[0]] + files[1..];
    }
  }

  lemma {:induction false} SameFilter(files: seq<string>, one: seq<string>, two: seq<string>, want: bool)
    requires forall f <- files :: f in one <==> f in two
    ensures Filter(files, one, want) == Filter(files, two, want)
  {
    if files != [] {
      assert files[0] in files && forall f <- files[1..] :: f in files;
      SameFilter(files[1..], one, two, want);
    }
  }

  lemma SelectedSorted(repo: Repo, opts: Options)
    ensures Sorted(Selected(repo, opts).tracked) && Sorted(Selected(repo, opts).untracked)
    ensures multiset(FilesOf(repo, opts)) ==
        multiset(Selected(repo, opts).tracked) + multiset(Selected(repo, opts).untracked)
  {
    var all, sel := PathsOf(Walk(Tokens(repo.porcelain))), Selected(repo, opts);
    SortSorts(Scoped(all.tracked, opts.paths));
    SortSorts(if opts.untracked then Scoped(all.untracked, opts.paths) else []);
    SortSorts(sel.tracked + sel.untracked);
  }

  lemma SameCommands(a: seq<string>, b: seq<string>, c: seq<string>, x: seq<string>, y: seq<string>, z: seq<string>)
    ensures (Unless(a, Checkout(a)) + Unless(b, RmCached(b)) + Unless(c, Clean(c)) ==
             Unless(x, Checkout(x)) + Unless(y, RmCached(y)) + Unless(z, Clean(z)))
            <==> (a == x && b == y && c == z)
  {
    CommandsHold(a, b, c);
    CommandsHold(x, y, z);
  }

  lemma CommandsHold(a: seq<string>, b: seq<string>, c: seq<string>)
    ensures var all := Unless(a, Checkout(a)) + Unless(b, RmCached(b)) + Unless(c, Clean(c));
      && (forall f :: Checkout(f) in all <==> f == a && a != [])
      && (forall f :: RmCached(f) in all <==> f == b && b != [])
      && (forall f :: Clean(f) in all <==> f == c && c != [])
  {
  }

  /** Over one list of names the commands are those that the preview's tree called for
      exactly when the same names are untracked and HEAD lists the same of the others. */
  lemma CommandsAreThePreviewedIff(shown: Repo, asked: Options, now: Repo, opts: Options)
    requires FilesOf(now, opts) == FilesOf(shown, asked)
    ensures CommandsFor(now, opts) == CommandsFor(shown, asked) <==>
      && Selected(now, opts).untracked == Selected(shown, asked).untracked
      && forall f <- Selected(now, opts).tracked :: f in InHead(now) <==> f in InHead(shown)
  {
    hide Selection, Selected, InHead, Filter, FilesOf, Unless, Sorted;
    var a, b := Selected(now, opts), Selected(shown, asked);
    var ra, sa := Filter(a.tracked, InHead(now), true), Filter(a.tracked, InHead(now), false);
    var rb, sb := Filter(b.tracked, InHead(shown), true), Filter(b.tracked, InHead(shown), false);
    SameCommands(ra, sa, a.untracked, rb, sb, b.untracked);
    FilterMembers(a.tracked, InHead(now), true);
    FilterMembers(a.tracked, InHead(now), false);
    FilterMembers(b.tracked, InHead(shown), true);
    FilterMembers(b.tracked, InHead(shown), false);
    SelectedSorted(now, opts);
    SelectedSorted(shown, asked);
    if a.untracked == b.untracked && forall f <- a.tracked :: f in InHead(now) <==> f in InHead(shown) {
      var rest := multiset(a.untracked);
      assert multiset(a.tracked) == (multiset(a.tracked) + rest) - rest;
      assert multiset(b.tracked) == (multiset(b.tracked) + rest) - rest;
      SortedUnique(a.tracked, b.tracked);
      SameFilter(a.tracked, InHead(now), InHead(shown), true);
      SameFilter(a.tracked, InHead(now), InHead(shown), false);
    }
  }

  /** The confirm can delete what the preview would have kept: a file that was staged
      as new when previewed, and has been unstaged since, keeps its name in the list. */
  lemma AConfirmCanDelete(head: string, lsTree: string, name: string, confirm: Option<string>)
    requires GoodName(name) && name !in NonEmpty(Split(lsTree, '\n'))
    ensures var shown := Repo(head, Print(TokensOf([Entry('A', ' ', name, None)])), lsTree);
      var now := Repo(head, Print(TokensOf([Entry('?', '?', name, None)])), lsTree);
      var opts := Options(None, true, true, confirm);
      && Head(shown) == Head(now) && FilesOf(shown, opts) == FilesOf(now, opts) == [name]
      && CommandsFor(shown, opts) == [RmCached([name])] && CommandsFor(now, opts) == [Clean([name])]
  {
    var opts := Options(None, true, true, confirm);
    OneEntry('A', ' ', name, opts, Repo(head, Print(TokensOf([Entry('A', ' ', name, None)])), lsTree));
    OneEntry('?', '?', name, opts, Repo(head, Print(TokensOf([Entry('?', '?', name, None)])), lsTree));
  }

  lemma OneEntry(x: char, y: char, name: string, opts: Options, repo: Repo)
    requires x != NUL && y != NUL && !Renames(x) && !Renames(y) && GoodName(name) && opts.paths.None? && opts.untracked
    requires repo.porcelain == Print(TokensOf([Entry(x, y, name, None)]))
    ensures Selected(repo, opts) == EntryPath(Entry(x, y, name, None)) && FilesOf(repo, opts) == [name]
    ensures name in InHead(repo) ||
      CommandsFor(repo, opts) == (if x == '?' && y == '?' then [Clean([name])] else [RmCached([name])])
  {
    var e := Entry(x, y, name, None);
    assert GoodEntries([e]);
    TokensAreGood([e]);
    PrintedTokens(TokensOf([e]));
    SelectionReadsEntries([e]);
    assert [e][1..] == [] && EntryPaths([]) == Split3([], []) && EntryPaths([e]) == Both(EntryPath(e), EntryPaths([]));
    assert EntryPaths([e]) == EntryPath(e);
    SortOne(name, opts.paths);
    assert Selected(repo, opts) == EntryPath(e);
    assert [name] + [] == [name] && [] + [name] == [name];
    hide Selection, PathsOf, Walk, Tokens, Print, TokensOf, NonEmpty;
    if name !in InHead(repo) { FilterOne(name, InHead(repo)); }
  }

  lemma SortOne(name: string, paths: Option<seq<string>>)
    requires paths.None?
    ensures Scoped([name], paths) == [name] && Scoped([], paths) == [] && Sort([name]) == [name] && Sort([]) == []
  {
    assert [name][1..] == [] && Scoped([], paths) == [] && Sort([]) == [];
    assert IntoSorted(name, []) == [name];
  }

  lemma FilterOne(name: string, known: seq<string>)
    requires name !in known
    ensures Filter([name], known, true) == [] && Filter([name], known, false) == [name]
    ensures forall want :: Filter([], known, want) == []
  {
    assert [name][1..] == [];
    assert Filter([], known, true) == [] && Filter([], known, false) == [];
  }

  function Touched(commands: seq<Command>): seq<string> {
    if commands == [] then [] else commands[0].files + Touched(commands[1..])
  }

  lemma {:induction false} FilterSplits(files: seq<string>, known: seq<string>)
    ensures multiset(Filter(files, known, true)) + multiset(Filter(files, known, false)) == multiset(files)
    ensures forall f :: f in Filter(files, known, true) ==> f in known
    ensures forall f :: f in Filter(files, known, false) ==> f !in known
  {
    if files != [] {
      FilterSplits(files[1..], known);
      assert files == [files[0]] + files[1..];
    }
  }

  lemma TouchedCons(c: Command, rest: seq<Command>)
    ensures Touched([c] + rest) == c.files + Touched(rest)
  {
    assert ([c] + rest)[1..] == rest;
  }

  lemma {:induction false} TouchedConcat(a: seq<Command>, b: seq<Command>)
    ensures Touched(a + b) == Touched(a) + Touched(b)
  {
    if a == [] {
      assert a + b == b && [] + Touched(b) == Touched(b);
    } else {
      var c, rest := a[0], a[1..];
      TouchedConcat(rest, b);
      TouchedCons(c, rest);
      TouchedCons(c, rest + b);
      assert [c] + rest == a && [c] + (rest + b) == a + b;
      Regroup(c.files, Touched(rest), Touched(b));
    }
  }

  lemma TouchedUnless(files: seq<string>, c: Command)
    requires c.files == files
    ensures Touched(Unless(files, c)) == files
  {
    if files != [] {
      assert [c][1..] == [] && Touched([]) == [] && files + [] == files;
    }
  }

  /** The three steps of an execution. */
  lemma TouchedCommands(restorable: seq<string>, staged: seq<string>, cleaned: seq<string>)
    ensures Touched(Unless(restorable, Checkout(restorable)) + Unless(staged, RmCached(staged)) +
        Unless(cleaned, Clean(cleaned)))
            == restorable + staged + cleaned
  {
    var a, b, c := Unless(restorable, Checkout(restorable)), Unless(staged, RmCached(staged)),
        Unless(cleaned, Clean(cleaned));
    TouchedConcat(a + b, c);
    TouchedConcat(a, b);
    TouchedUnless(restorable, Checkout(restorable));
    TouchedUnless(staged, RmCached(staged));
    TouchedUnless(cleaned, Clean(cleaned));
  }

  /** An execution's commands partition the listed files. */
  lemma CommandsPartition(repo: Repo, opts: Options)
    ensures multiset(Touched(CommandsFor(repo, opts))) == multiset(FilesOf(repo, opts))
  {
    hide Selection, InHead, Sort, Touched, Filter;
    var sel := Selected(repo, opts);
    var restorable, staged := Filter(sel.tracked, InHead(repo), true), Filter(sel.tracked, InHead(repo), false);
    TouchedCommands(restorable, staged, sel.untracked);
    FilterSplits(sel.tracked, InHead(repo));
    SortSorts(sel.tracked + sel.untracked);
    assert multiset(restorable + staged + sel.untracked) == multiset(sel.tracked + sel.untracked);
  }

  /** What HEAD has is restored, what it has not is only unstaged, and files are
      deleted only when `untracked` was asked for. */
  lemma CommandKinds(repo: Repo, opts: Options, c: Command)
    requires c in CommandsFor(repo, opts)
    ensures c.files != []
    ensures c.Checkout? ==> forall f <- c.files :: f in InHead(repo)
    ensures c.RmCached? ==> forall f <- c.files :: f !in InHead(repo)
    ensures c.Clean? ==> opts.untracked
  {
    hide Selection, InHead, Sort, Filter;
    FilterSplits(Selected(repo, opts).tracked, InHead(repo));
    NothingLoose(repo, opts);
  }

  lemma NothingLoose(repo: Repo, opts: Options)
    ensures !opts.untracked ==> Selected(repo, opts).untracked == []
  {
  }

  /** The files a discard lists are those of the entries its walk reads, in scope,
      untracked ones only when asked for, whatever git answered. */
  lemma FilesAreTheWalk(repo: Repo, opts: Options, f: string)
    ensures f in FilesOf(repo, opts) <==>
            exists t <- Walk(Tokens(repo.porcelain)) :: From(t, 3) == f && InScope(f, opts.paths) &&
                (Take(t, 2) == "??" ==> opts.untracked)
  {
    var walked := Walk(Tokens(repo.porcelain));
    FilesOfPaths(repo, opts, f);
    PathsMembers(walked, f);
  }

  lemma FilesOfPaths(repo: Repo, opts: Options, f: string)
    ensures var all := PathsOf(Walk(Tokens(repo.porcelain)));
      f in FilesOf(repo, opts) <==>
        (InScope(f, opts.paths) && (f in all.tracked || (opts.untracked && f in all.untracked)))
  {
    hide Walk, Tokens, PathsOf, InScope;
    var all, sel := PathsOf(Walk(Tokens(repo.porcelain))), Selected(repo, opts);
    var loose := if opts.untracked then Scoped(all.untracked, opts.paths) else [];
    ScopedKeeps(all.tracked, opts.paths);
    ScopedKeeps(all.untracked, opts.paths);
    SortKeeps(Scoped(all.tracked, opts.paths));
    SortKeeps(loose);
    SortKeeps(sel.tracked + sel.untracked);
  }

  lemma {:induction false} PathsMembers(tokens: seq<string>, f: string)
    ensures f in PathsOf(tokens).tracked <==> exists t <- tokens :: From(t, 3) == f && Take(t, 2) != "??"
    ensures f in PathsOf(tokens).untracked <==> exists t <- tokens :: From(t, 3) == f && Take(t, 2) == "??"
  {
    if tokens != [] {
      PathsMembers(tokens[1..], f);
      assert tokens == [tokens[0]] + tokens[1..];
    }
  }

  /** End to end: over a printed status whose original paths are all skipped or
      stand in for the entries they hide, the files a discard lists are exactly the
      entries in scope, untracked ones only when asked for. */
  lemma FilesAreTheEntries(repo: Repo, opts: Options, entries: seq<Entry>, f: string)
    requires GoodEntries(entries) && Covered(entries)
    requires repo.porcelain == Print(TokensOf(entries))
    ensures f in FilesOf(repo, opts) <==>
            exists e <- entries :: e.path == f && InScope(f, opts.paths) && (Untracked(e) ==> opts.untracked)
  {
    TokensAreGood(entries);
    PrintedTokens(TokensOf(entries));
    SelectionReadsEntriesIff(entries);
    FilesOfPaths(repo, opts, f);
    EntryPathsMembers(entries, f);
  }

  lemma {:induction false} EntryPathsMembers(entries: seq<Entry>, f: string)
    ensures f in EntryPaths(entries).tracked <==> exists e <- entries :: e.path == f && !Untracked(e)
    ensures f in EntryPaths(entries).untracked <==> exists e <- entries :: e.path == f && Untracked(e)
  {
    if entries != [] {
      EntryPathsMembers(entries[1..], f);
      assert entries == [entries[0]] + entries[1..];
    }
  }
}
