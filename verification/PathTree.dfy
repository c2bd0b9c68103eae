/** The tree that `foldTree` (src/git-exec.ts) makes of a list of slash-separated
    paths, as a value of directory and file nodes, and what can be read back from
    it. */
module PathTree {
  import opened Wrappers
  import opened JsText

  datatype Node = File(name: string) | Dir(name: string, children: seq<Node>)

  // ---- the fold on values -------------------------------------------------

  /** Adds one path, given by its segments, below a list of siblings. */
  function Insert(siblings: seq<Node>, segs: seq<string>): seq<Node>
    requires segs != []
    decreases |segs|, 0, 0
  {
    if |segs| == 1 then siblings + [File(segs[0])] else InsertDir(siblings, segs)
  }

  function InsertDir(siblings: seq<Node>, segs: seq<string>): seq<Node>
    requires |segs| > 1
    decreases |segs| - 1, 1, |siblings|
  {
    if siblings == [] then [Dir(segs[0], Insert([], segs[1..]))]
    else if siblings[0].Dir? && siblings[0].name == segs[0] then
      [Dir(segs[0], Insert(siblings[0].children, segs[1..]))] + siblings[1..]
    else [siblings[0]] + InsertDir(siblings[1..], segs)
  }

  /** The segments of a path as the fold sees them: an empty first segment names
      the root itself, so leading slashes vanish. */
  function Strip(segs: seq<string>): (r: seq<string>)
    requires segs != []
    ensures r != [] && |r| <= |segs|
  {
    if |segs| > 1 && segs[0] == "" then Strip(segs[1..]) else segs
  }

  function Segments(path: string): (segs: seq<string>)
    ensures segs != []
  {
    Strip(Split(path, '/'))
  }

  function Fold(paths: seq<string>): seq<Node> {
    if paths == [] then [] else Insert(Fold(paths[..|paths| - 1]), Segments(paths[|paths| - 1]))
  }

  // ---- reading a tree back ------------------------------------------------

  /** The files below a list of siblings, depth first, each as a full path. */
  function Flatten(siblings: seq<Node>, prefix: string): seq<string> {
    if siblings == [] then []
    else
      (match siblings[0]
       case File(name) => [prefix + name]
       case Dir(name, children) => Flatten(children, prefix + name + "/"))
      + Flatten(siblings[1..], prefix)
  }

  /** The directories below a list of siblings, depth first, each as the list of
      names that leads to it. */
  function DirKeys(siblings: seq<Node>, prefix: seq<string>): seq<seq<string>> {
    if siblings == [] then []
    else
      (if siblings[0].Dir? then
         [prefix + [siblings[0].name]] + DirKeys(siblings[0].children, prefix + [siblings[0].name])
       else [])
      + DirKeys(siblings[1..], prefix)
  }

  // ---- permutation --------------------------------------------------------

  lemma {:induction false} InsertAddsOne(siblings: seq<Node>, segs: seq<string>, prefix: string)
    requires segs != []
    ensures multiset(Flatten(Insert(siblings, segs), prefix)) ==
            multiset(Flatten(siblings, prefix)) + multiset{prefix + Join(segs, "/")}
    decreases |segs|, 0, 0
  {
    if |segs| == 1 {
      FlattenConcat(siblings, [File(segs[0])], prefix);
      assert Flatten([File(segs[0])], prefix) == [prefix + segs[0]];
    } else {
      InsertDirAddsOne(siblings, segs, prefix);
    }
  }

  lemma {:induction false} InsertDirAddsOne(siblings: seq<Node>, segs: seq<string>, prefix: string)
    requires |segs| > 1
    ensures multiset(Flatten(InsertDir(siblings, segs), prefix)) ==
            multiset(Flatten(siblings, prefix)) + multiset{prefix + Join(segs, "/")}
    decreases |segs| - 1, 1, |siblings|
  {
    var below := prefix + segs[0] + "/";
    assert below + Join(segs[1..], "/") == prefix + Join(segs, "/");
    if siblings == [] {
      var d := Dir(segs[0], Insert([], segs[1..]));
      InsertAddsOne([], segs[1..], below);
      assert Flatten([d], prefix) == Flatten(d.children, below) + Flatten([], prefix);
      assert Flatten([], below) == [];
    } else if siblings[0].Dir? && siblings[0].name == segs[0] {
      var d := Dir(segs[0], Insert(siblings[0].children, segs[1..]));
      InsertAddsOne(siblings[0].children, segs[1..], below);
      assert ([d] + siblings[1..])[1..] == siblings[1..];
    } else {
      InsertDirAddsOne(siblings[1..], segs, prefix);
      assert ([siblings[0]] + InsertDir(siblings[1..], segs))[1..] == InsertDir(siblings[1..], segs);
    }
  }

  lemma FlattenCons(first: Node, rest: seq<Node>, prefix: string)
    ensures Flatten([first] + rest, prefix) == Flatten([first], prefix) + Flatten(rest, prefix)
  {
    assert ([first] + rest)[1..] == rest && [first][1..] == [];
    assert Flatten([first][1..], prefix) == [];
  }

  lemma {:induction false} FlattenConcat(a: seq<Node>, b: seq<Node>, prefix: string)
    ensures Flatten(a + b, prefix) == Flatten(a, prefix) + Flatten(b, prefix)
  {
    if a == [] {
      assert a + b == b;
    } else {
      var first, rest := a[0], a[1..];
      FlattenConcat(rest, b, prefix);
      FlattenCons(first, rest, prefix);
      FlattenCons(first, rest + b, prefix);
      hide Flatten;
      assert [first] + rest == a && [first] + (rest + b) == a + b;
      Regroup(Flatten([first], prefix), Flatten(rest, prefix), Flatten(b, prefix));
    }
  }

  /** A path without its leading slashes. */
  function DropSlashes(path: string): string {
    if path != "" && path[0] == '/' then DropSlashes(path[1..]) else path
  }

  function DropAll(paths: seq<string>): seq<string> {
    if paths == [] then [] else DropAll(paths[..|paths| - 1]) + [DropSlashes(paths[|paths| - 1])]
  }

  lemma {:induction false} SegmentsJoin(path: string)
    ensures Join(Segments(path), "/") == DropSlashes(path)
    ensures forall s <- Segments(path) :: '/' !in s
  {
    JoinSplit(path, '/');
    if path != "" && path[0] == '/' {
      assert Split(path, '/') == [""] + Split(path[1..], '/');
      assert Strip(Split(path, '/')) == Strip(Split(path[1..], '/'));
      SegmentsJoin(path[1..]);
    } else if path != "" {
      assert Split(path, '/')[0] != "";
    }
  }

  /** FAITHFUL FOLD. Reading the tree back gives a permutation of the paths, up
      to the leading slashes the root key swallows. */
  lemma {:induction false} FoldKeepsEveryPath(paths: seq<string>)
    ensures multiset(Flatten(Fold(paths), "")) == multiset(DropAll(paths))
  {
    if paths != [] {
      var before, last := paths[..|paths| - 1], paths[|paths| - 1];
      FoldKeepsEveryPath(before);
      InsertAddsOne(Fold(before), Segments(last), "");
      SegmentsJoin(last);
      assert "" + DropSlashes(last) == DropSlashes(last);
    }
  }

  ghost predicate NoLeadingSlash(paths: seq<string>) {
    forall p <- paths :: !StartsWith(p, "/")
  }

  lemma {:induction false} DropSlashesIff(path: string)
    ensures !StartsWith(DropSlashes(path), "/")
    ensures DropSlashes(path) == path <==> !StartsWith(path, "/")
  {
    if path != "" && path[0] == '/' {
      DropSlashesIff(path[1..]);
    }
  }

  lemma {:induction false} DropAllIff(paths: seq<string>)
    ensures NoLeadingSlash(DropAll(paths))
    ensures NoLeadingSlash(paths) ==> DropAll(paths) == paths
  {
    if paths != [] {
      var before, last := paths[..|paths| - 1], paths[|paths| - 1];
      assert paths == before + [last];
      DropAllIff(before);
      DropSlashesIff(last);
    }
  }

  /** The fold is faithful exactly when no path starts with a slash. */
  lemma FoldFaithfulIff(paths: seq<string>)
    ensures multiset(Flatten(Fold(paths), "")) == multiset(paths) <==> NoLeadingSlash(paths)
  {
    FoldKeepsEveryPath(paths);
    DropAllIff(paths);
    if multiset(DropAll(paths)) == multiset(paths) {
      forall p <- paths ensures !StartsWith(p, "/") {
        assert p in multiset(DropAll(paths));
      }
    }
  }

  // ---- one directory node a prefix ----------------------------------------

  /** No two sibling directories share a name, at any level, and no directory is
      empty. */
  ghost predicate Tidy(siblings: seq<Node>) {
    siblings == [] ||
    (Tidy(siblings[1..]) &&
     (siblings[0].Dir? ==>
        siblings[0].children != [] && Tidy(siblings[0].children) && !HasDir(siblings[1..], siblings[0].name)))
  }

  predicate HasDir(siblings: seq<Node>, name: string) {
    exists n <- siblings :: n.Dir? && n.name == name
  }

  lemma {:induction false} InsertTidy(siblings: seq<Node>, segs: seq<string>)
    requires segs != [] && Tidy(siblings)
    ensures Tidy(Insert(siblings, segs)) && Insert(siblings, segs) != []
    decreases |segs|, 0, 0
  {
    if |segs| == 1 {
      TidyFile(siblings, segs[0]);
    } else {
      InsertDirTidy(siblings, segs);
    }
  }

  lemma {:induction false} TidyFile(siblings: seq<Node>, name: string)
    requires Tidy(siblings)
    ensures Tidy(siblings + [File(name)])
  {
    if siblings == [] {
      assert (siblings + [File(name)])[1..] == [];
    } else {
      TidyFile(siblings[1..], name);
      assert (siblings + [File(name)])[1..] == siblings[1..] + [File(name)];
    }
  }

  lemma HasDirCons(first: Node, rest: seq<Node>)
    ensures forall name :: HasDir([first] + rest, name) <==> (first.Dir? && first.name == name) || HasDir(rest, name)
  {
    assert forall n :: n in [first] + rest <==> n == first || n in rest;
  }

  lemma {:induction false} InsertDirTidy(siblings: seq<Node>, segs: seq<string>)
    requires |segs| > 1 && Tidy(siblings)
    ensures Tidy(InsertDir(siblings, segs)) && InsertDir(siblings, segs) != []
    ensures forall name :: HasDir(InsertDir(siblings, segs), name) <==> HasDir(siblings, name) || name == segs[0]
    decreases |segs| - 1, 1, |siblings|
  {
    var after := InsertDir(siblings, segs);
    if siblings == [] {
      InsertTidy([], segs[1..]);
      HasDirCons(after[0], []);
      assert after == [after[0]] + [] && after[1..] == [];
    } else {
      var rest := siblings[1..];
      HasDirCons(siblings[0], rest);
      assert siblings == [siblings[0]] + rest;
      if siblings[0].Dir? && siblings[0].name == segs[0] {
        InsertTidy(siblings[0].children, segs[1..]);
        HasDirCons(after[0], rest);
        assert after[1..] == rest;
      } else {
        InsertDirTidy(rest, segs);
        HasDirCons(siblings[0], InsertDir(rest, segs));
        assert after[1..] == InsertDir(rest, segs);
      }
    }
  }

  ghost predicate IsPrefix(p: seq<string>, s: seq<string>) {
    |p| <= |s| && s[..|p|] == p
  }

  /** Directories listed below a prefix extend it by the name of a sibling. */
  lemma {:induction false} DirKeysExtend(siblings: seq<Node>, prefix: seq<string>, key: seq<string>)
    requires key in DirKeys(siblings, prefix)
    ensures |key| > |prefix| && IsPrefix(prefix, key) && HasDir(siblings, key[|prefix|])
  {
    var rest := siblings[1..];
    assert siblings == [siblings[0]] + rest;
    if key in DirKeys(rest, prefix) {
      DirKeysExtend(rest, prefix, key);
    } else {
      var here := prefix + [siblings[0].name];
      if key != here {
        DirKeysExtend(siblings[0].children, here, key);
        assert key[..|prefix|] == key[..|here|][..|prefix|] && key[|prefix|] == key[..|here|][|prefix|];
      }
    }
  }

  ghost predicate Distinct<T>(xs: seq<T>) {
    forall i, j :: 0 <= i < j < |xs| ==> xs[i] != xs[j]
  }

  lemma DistinctConcat<T>(a: seq<T>, b: seq<T>)
    requires Distinct(a) && Distinct(b) && forall x <- a :: x !in b
    ensures Distinct(a + b)
  {
    forall i, j | 0 <= i < j < |a + b| ensures (a + b)[i] != (a + b)[j] {
      if i < |a| <= j {
        assert (a + b)[i] in a && (a + b)[j] in b;
      }
    }
  }

  lemma {:induction false} DirKeysDistinct(siblings: seq<Node>, prefix: seq<string>)
    requires Tidy(siblings)
    ensures Distinct(DirKeys(siblings, prefix))
  {
    if siblings != [] {
      var rest := siblings[1..];
      DirKeysDistinct(rest, prefix);
      if siblings[0].Dir? {
        var here := prefix + [siblings[0].name];
        var below := DirKeys(siblings[0].children, here);
        DirKeysDistinct(siblings[0].children, here);
        forall key <- below ensures |key| > |here| && IsPrefix(here, key) {
          DirKeysExtend(siblings[0].children, here, key);
        }
        DistinctConcat([here], below);
        forall key <- [here] + below ensures key !in DirKeys(rest, prefix) {
          assert IsPrefix(here, key) && key[|prefix|] == key[..|here|][|prefix|] == siblings[0].name;
          if key in DirKeys(rest, prefix) {
            DirKeysExtend(rest, prefix, key);
          }
        }
        DistinctConcat([here] + below, DirKeys(rest, prefix));
      }
    }
  }

  /** `key` is a directory on the way down `segs`, below `prefix`. */
  ghost predicate OnTheWay(key: seq<string>, segs: seq<string>, prefix: seq<string>) {
    exists k :: 0 < k < |segs| && key == prefix + segs[..k]
  }

  lemma OneDown(prefix: seq<string>, segs: seq<string>, k: nat)
    requires k < |segs|
    ensures prefix + segs[..k + 1] == prefix + [segs[0]] + segs[1..][..k]
  {
    assert segs[..k + 1] == [segs[0]] + segs[1..][..k];
  }

  lemma OnTheWayFirst(key: seq<string>, segs: seq<string>, prefix: seq<string>)
    requires |segs| > 1
    ensures OnTheWay(key, segs, prefix) <==>
            key == prefix + [segs[0]] || OnTheWay(key, segs[1..], prefix + [segs[0]])
  {
    var here := prefix + [segs[0]];
    if OnTheWay(key, segs, prefix) {
      var k :| 0 < k < |segs| && key == prefix + segs[..k];
      if k == 1 {
        assert segs[..1] == [segs[0]];
      } else {
        OneDown(prefix, segs, k - 1);
      }
    }
    if OnTheWay(key, segs[1..], here) {
      var k :| 0 < k < |segs[1..]| && key == here + segs[1..][..k];
      OneDown(prefix, segs, k);
    }
    if key == here {
      assert key == prefix + segs[..1];
    }
  }

  lemma {:induction false} InsertDirKeys(siblings: seq<Node>, segs: seq<string>, prefix: seq<string>, key: seq<string>)
    requires segs != []
    ensures key in DirKeys(Insert(siblings, segs), prefix) <==>
            key in DirKeys(siblings, prefix) || OnTheWay(key, segs, prefix)
    decreases |segs|, 0, 0
  {
    if |segs| == 1 {
      DirKeysFile(siblings, segs[0], prefix);
    } else {
      InsertDirDirKeys(siblings, segs, prefix, key);
    }
  }

  lemma {:induction false} DirKeysFile(siblings: seq<Node>, name: string, prefix: seq<string>)
    ensures DirKeys(siblings + [File(name)], prefix) == DirKeys(siblings, prefix)
  {
    var all := siblings + [File(name)];
    if siblings == [] {
      assert all[1..] == [];
    } else {
      DirKeysFile(siblings[1..], name, prefix);
      assert all[1..] == siblings[1..] + [File(name)];
    }
  }

  lemma {:induction false} InsertDirDirKeys(siblings: seq<Node>, segs: seq<string>, prefix: seq<string>,
      key: seq<string>)
    requires |segs| > 1
    ensures key in DirKeys(InsertDir(siblings, segs), prefix) <==>
            key in DirKeys(siblings, prefix) || OnTheWay(key, segs, prefix)
    decreases |segs| - 1, 1, |siblings|
  {
    var after, here := InsertDir(siblings, segs), prefix + [segs[0]];
    OnTheWayFirst(key, segs, prefix);
    if siblings == [] {
      InsertDirKeys([], segs[1..], here, key);
      assert DirKeys([], here) == [] && after[1..] == [] && DirKeys(after[1..], prefix) == [];
    } else if siblings[0].Dir? && siblings[0].name == segs[0] {
      InsertDirKeys(siblings[0].children, segs[1..], here, key);
      assert after[1..] == siblings[1..];
    } else {
      InsertDirDirKeys(siblings[1..], segs, prefix, key);
      assert after[1..] == InsertDir(siblings[1..], segs);
    }
  }

  /** ONE DIRECTORY A PREFIX. The tree's directories are exactly the proper
      prefixes of the paths, each once, and none is empty. */
  lemma {:induction false} OneDirectoryAPrefix(paths: seq<string>)
    ensures Tidy(Fold(paths)) && Distinct(DirKeys(Fold(paths), []))
    ensures forall key :: key in DirKeys(Fold(paths), []) <==> exists p <- paths :: OnTheWay(key, Segments(p), [])
  {
    if paths == [] {
    } else {
      var before, last := paths[..|paths| - 1], paths[|paths| - 1];
      assert paths == before + [last];
      OneDirectoryAPrefix(before);
      InsertTidy(Fold(before), Segments(last));
      DirKeysDistinct(Fold(paths), []);
      forall key ensures key in DirKeys(Fold(paths), []) <==> exists p <- paths :: OnTheWay(key, Segments(p), []) {
        InsertDirKeys(Fold(before), Segments(last), [], key);
      }
    }
  }

  // ---- sorted input -------------------------------------------------------

  /** Sorted strings keep those with a common prefix together. */
  lemma {:induction false} PrefixIsContiguous(low: string, mid: string, high: string, x: string)
    requires Leq(low, mid) && Leq(mid, high) && StartsWith(low, x) && StartsWith(high, x)
    ensures StartsWith(mid, x)
  {
    if x != "" {
      assert low[0] == x[0] && high[0] == x[0];
      assert low[1..][..|x| - 1] == x[1..] && high[1..][..|x| - 1] == x[1..];
      RankInjective(mid[0], x[0]);
      PrefixIsContiguous(low[1..], mid[1..], high[1..], x[1..]);
      assert mid[..|x|] == [mid[0]] + mid[1..][..|x| - 1];
    }
  }

  /** Names without slashes all the way down. */
  ghost predicate SlashFree(siblings: seq<Node>) {
    siblings == [] ||
    ('/' !in siblings[0].name && SlashFree(siblings[1..]) && (siblings[0].Dir? ==> SlashFree(siblings[0].children)))
  }

  lemma {:induction false} InsertSlashFree(siblings: seq<Node>, segs: seq<string>)
    requires segs != [] && SlashFree(siblings) && forall s <- segs :: '/' !in s
    ensures SlashFree(Insert(siblings, segs))
    decreases |segs|, 0, 0
  {
    if |segs| == 1 {
      SlashFreeConcat(siblings, [File(segs[0])]);
    } else {
      InsertDirSlashFree(siblings, segs);
    }
  }

  lemma {:induction false} SlashFreeConcat(a: seq<Node>, b: seq<Node>)
    ensures SlashFree(a + b) <==> SlashFree(a) && SlashFree(b)
  {
    if a == [] {
      assert a + b == b;
    } else {
      SlashFreeConcat(a[1..], b);
      assert (a + b)[1..] == a[1..] + b;
    }
  }

  lemma {:induction false} InsertDirSlashFree(siblings: seq<Node>, segs: seq<string>)
    requires |segs| > 1 && SlashFree(siblings) && forall s <- segs :: '/' !in s
    ensures SlashFree(InsertDir(siblings, segs))
    decreases |segs| - 1, 1, |siblings|
  {
    var after := InsertDir(siblings, segs);
    if siblings == [] {
      InsertSlashFree([], segs[1..]);
      assert after[1..] == [];
    } else if siblings[0].Dir? && siblings[0].name == segs[0] {
      InsertSlashFree(siblings[0].children, segs[1..]);
      assert after[1..] == siblings[1..];
    } else {
      InsertDirSlashFree(siblings[1..], segs);
      assert after[1..] == InsertDir(siblings[1..], segs);
    }
  }

  /** What precedes the first slash; None when there is none. */
  function FirstName(s: string): Option<string> {
    if s == "" then None
    else if s[0] == '/' then Some("")
    else
      var r := FirstName(s[1..]);
      if r.None? then None else Some([s[0]] + r.value)
  }

  lemma {:induction false} FirstNameOf(name: string, rest: string)
    requires '/' !in name
    ensures FirstName(name + "/" + rest) == Some(name) && FirstName(name) == None
  {
    var s := name + "/" + rest;
    if name != "" {
      FirstNameOf(name[1..], rest);
      assert s[1..] == name[1..] + "/" + rest && name == [name[0]] + name[1..];
    }
  }

  lemma {:induction false} FlattenHasPrefix(siblings: seq<Node>, prefix: string, p: string)
    requires p in Flatten(siblings, prefix)
    ensures StartsWith(p, prefix)
  {
    var rest := siblings[1..];
    if p in Flatten(rest, prefix) {
      FlattenHasPrefix(rest, prefix, p);
    } else if siblings[0].Dir? {
      var below := prefix + siblings[0].name + "/";
      FlattenHasPrefix(siblings[0].children, below, p);
      assert p[..|prefix|] == p[..|below|][..|prefix|] == prefix;
    } else {
      assert p[..|prefix|] == prefix;
    }
  }

  lemma {:induction false} TidyFlattens(siblings: seq<Node>, prefix: string)
    requires Tidy(siblings) && siblings != []
    ensures Flatten(siblings, prefix) != []
  {
    if siblings[0].Dir? {
      TidyFlattens(siblings[0].children, prefix + siblings[0].name + "/");
    }
  }

  /** Below another directory's name, or at a file, no path starts with `d/`. */
  lemma {:induction false} ForeignPath(node: Node, prefix: string, p: string, d: string)
    requires p in Flatten([node], prefix) && SlashFree([node]) && '/' !in d
    requires node.Dir? ==> node.name != d
    ensures !StartsWith(p, prefix + d + "/")
  {
    assert [node][1..] == [] && Flatten([], prefix) == [];
    FlattenHasPrefix([node], prefix, p);
    var tail := p[|prefix|..];
    if node.File? {
      assert tail == node.name;
      FirstNameOf(node.name, "");
    } else {
      var below := prefix + node.name + "/";
      FlattenHasPrefix(node.children, below, p);
      assert p == below + p[|below|..];
      assert tail == node.name + "/" + p[|below|..];
      FirstNameOf(node.name, p[|below|..]);
    }
    assert FirstName(tail) != Some(d);
    if StartsWith(p, prefix + d + "/") {
      var rest := p[|prefix + d + "/"|..];
      assert p == (prefix + d + "/") + rest;
      assert tail == d + "/" + rest;
      FirstNameOf(d, rest);
    }
  }

  lemma TidyFirst(siblings: seq<Node>)
    requires siblings != [] && Tidy(siblings)
    ensures Tidy([siblings[0]])
  {
    var one := [siblings[0]];
    assert Tidy(one[1..]) by { assert one[1..] == []; }
  }

  lemma SortedPart(a: seq<string>, b: seq<string>, c: seq<string>)
    requires Sorted(a + b + c)
    ensures Sorted(b + c)
  {
    forall i, j | 0 <= i < j < |b + c| ensures Leq((b + c)[i], (b + c)[j]) {
      assert (b + c)[i] == (a + b + c)[|a| + i] && (b + c)[j] == (a + b + c)[|a| + j];
    }
  }

  lemma {:induction false} InsertAtTheEnd(siblings: seq<Node>, segs: seq<string>, prefix: string)
    requires segs != [] && (forall s <- segs :: '/' !in s)
    requires Tidy(siblings) && SlashFree(siblings)
    requires Sorted(Flatten(siblings, prefix) + [prefix + Join(segs, "/")])
    ensures Flatten(Insert(siblings, segs), prefix) == Flatten(siblings, prefix) + [prefix + Join(segs, "/")]
    decreases |segs|, 0, 0
  {
    if |segs| == 1 {
      FlattenConcat(siblings, [File(segs[0])], prefix);
      assert Flatten([File(segs[0])], prefix) == [prefix + segs[0]];
    } else {
      InsertDirAtTheEnd(siblings, segs, prefix);
    }
  }

  lemma {:induction false} InsertDirAtTheEnd(siblings: seq<Node>, segs: seq<string>, prefix: string)
    requires |segs| > 1 && (forall s <- segs :: '/' !in s)
    requires Tidy(siblings) && SlashFree(siblings)
    requires Sorted(Flatten(siblings, prefix) + [prefix + Join(segs, "/")])
    ensures Flatten(InsertDir(siblings, segs), prefix) == Flatten(siblings, prefix) + [prefix + Join(segs, "/")]
    decreases |segs| - 1, 1, |siblings|
  {
    var p, below := prefix + Join(segs, "/"), prefix + segs[0] + "/";
    assert p == below + Join(segs[1..], "/");
    var after := InsertDir(siblings, segs);
    if siblings == [] {
      InsertAtTheEnd([], segs[1..], below);
      assert Flatten([], below) == [] && after[1..] == [] && Flatten(after[1..], prefix) == [];
    } else {
      var rest := siblings[1..];
      assert after[1..] == if siblings[0].Dir? && siblings[0].name == segs[0] then rest else InsertDir(rest, segs);
      var head := if siblings[0].File? then [prefix + siblings[0].name]
          else Flatten(siblings[0].children, prefix + siblings[0].name + "/");
      var tail := Flatten(rest, prefix);
      assert Flatten(siblings, prefix) == head + tail;
      if siblings[0].Dir? && siblings[0].name == segs[0] {
        if rest != [] { NothingAfterItsDirectory(siblings, prefix, p, segs[0]); }
        assert tail == [];
        assert head + [] == head;
        InsertAtTheEnd(siblings[0].children, segs[1..], below);
      } else {
        SortedPart(head, tail, [p]);
        InsertDirAtTheEnd(rest, segs, prefix);
        assert head + (tail + [p]) == (head + tail) + [p];
      }
    }
  }

  /** In sorted order, once a sibling follows directory `d` no path below `d`
      can come any more. */
  lemma NothingAfterItsDirectory(siblings: seq<Node>, prefix: string, p: string, d: string)
    requires |siblings| > 1 && siblings[0].Dir? && siblings[0].name == d
    requires Tidy(siblings) && SlashFree(siblings) && StartsWith(p, prefix + d + "/")
    ensures !Sorted(Flatten(siblings, prefix) + [p])
  {
    var below := prefix + d + "/";
    var head, next, rest := Flatten(siblings[0].children, below), siblings[1], siblings[2..];
    TidyFlattens(siblings[0].children, below);
    FlattenHasPrefix(siblings[0].children, below, head[0]);
    assert siblings[1..] == [next] + rest && siblings[1..][1..] == rest;
    TidyFirst([next] + rest);
    SlashFreeConcat([next], rest);
    TidyFlattens([next], prefix);
    var mid := Flatten([next], prefix);
    FlattenConcat([next], rest, prefix);
    var all := Flatten(siblings, prefix) + [p];
    assert Flatten(siblings, prefix) == head + (mid + Flatten(rest, prefix));
    assert all[0] == head[0] && all[|head|] == mid[0] && all[|all| - 1] == p;
    assert next in siblings[1..];
    ForeignPath(next, prefix, mid[0], d);
    if Sorted(all) { PrefixIsContiguous(head[0], mid[0], p, below); }
  }

  /** SORTED INPUT. On a sorted list, which is what `repoTree` passes, reading
      the tree back gives exactly the list, precisely when no path starts with a
      slash. */
  lemma SortedFoldReadsBack(paths: seq<string>)
    requires Sorted(paths)
    ensures Flatten(Fold(paths), "") == paths <==> NoLeadingSlash(paths)
  {
    FoldFaithfulIff(paths);
    if NoLeadingSlash(paths) { SortedFold(paths); }
  }

  lemma FoldTidy(paths: seq<string>)
    ensures Tidy(Fold(paths))
  {
    OneDirectoryAPrefix(paths);
  }

  lemma SortedFoldStep(before: seq<string>, last: string)
    requires Sorted(before + [last]) && !StartsWith(last, "/")
    requires Tidy(Fold(before)) && SlashFree(Fold(before)) && Flatten(Fold(before), "") == before
    ensures var after := Insert(Fold(before), Segments(last));
            Flatten(after, "") == before + [last] && SlashFree(after)
  {
    SegmentsJoin(last);
    DropSlashesIff(last);
    assert "" + last == last;
    InsertAtTheEnd(Fold(before), Segments(last), "");
    InsertSlashFree(Fold(before), Segments(last));
  }

  lemma {:induction false} SortedFold(paths: seq<string>)
    requires Sorted(paths) && NoLeadingSlash(paths)
    ensures Flatten(Fold(paths), "") == paths && SlashFree(Fold(paths))
  {
    if paths != [] {
      var before, last := paths[..|paths| - 1], paths[|paths| - 1];
      assert paths == before + [last];
      SortedFold(before);
      FoldTidy(before);
      SortedFoldStep(before, last);
    }
  }
}
