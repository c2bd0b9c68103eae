/** `foldTree` as the source runs it: nodes with mutable child lists, found by
    directory path in a map. Proved to show the tree the fold on values gives. */
module FoldTree {
  import opened JsText
  import opened PathTree

  class TreeNode {
    const name: string
    const isDir: bool
    var children: seq<TreeNode>

    constructor (name: string, isDir: bool)
      ensures this.name == name && this.isDir == isDir && children == []
    {
      this.name, this.isDir, this.children := name, isDir, [];
    }
  }

  /** `node` and everything below it, all among `nodes`, is the tree `t`. */
  ghost predicate Shows(node: TreeNode, t: Node, nodes: set<TreeNode>)
    reads nodes
    decreases t
  {
    && node in nodes && node.name == t.name
    && match t
       case File(_) => !node.isDir && node.children == []
       case Dir(_, children) =>
         node.isDir && |node.children| == |children| &&
         forall i :: 0 <= i < |children| ==> Shows(node.children[i], children[i], nodes)
  }

  // ---- child lists by directory -------------------------------------------

  datatype Child = FileChild(name: string) | DirChild(name: string)

  /** Every directory's own child list, keyed by the names that lead to it. */
  type Arena = map<seq<string>, seq<Child>>

  /** `depth` bounds the keys; child lists and keys agree; a directory is listed once. */
  ghost predicate ArenaOk(arena: Arena, depth: nat) {
    Closed(arena, depth) && forall ks <- arena :: ListedOnce(arena[ks])
  }

  ghost predicate Closed(arena: Arena, depth: nat) {
    && [] in arena
    && (forall ks <- arena :: |ks| <= depth)
    && (forall ks <- arena, c <- arena[ks] :: c.DirChild? ==> ks + [c.name] in arena)
    && (forall ks, n :: ks + [n] in arena ==> ks in arena && DirChild(n) in arena[ks])
  }

  ghost predicate ListedOnce(children: seq<Child>) {
    forall i, j :: 0 <= i < j < |children| && children[i].DirChild? ==> children[i] != children[j]
  }

  ghost function Build(arena: Arena, ks: seq<string>, children: seq<Child>, depth: nat): seq<Node>
    decreases depth, |children|
  {
    if children == [] then []
    else
      var name := children[0].name;
      [if children[0].FileChild? then File(name)
       else if depth > 0 && ks + [name] in arena
         then Dir(name, Build(arena, ks + [name], arena[ks + [name]], depth - 1))
       else Dir(name, [])]
      + Build(arena, ks, children[1..], depth)
  }

  /** The arena after `child` is listed in directory `ks`. */
  ghost function Listed(arena: Arena, ks: seq<string>, child: Child): Arena
    requires ks in arena
  {
    var a := arena[ks := arena[ks] + [child]];
    if child.DirChild? then a[ks + [child.name] := []] else a
  }

  /** Makes sure directory `ks + [seg]` exists. */
  ghost function Enter(arena: Arena, ks: seq<string>, seg: string): Arena
    requires ks in arena
  {
    if ks + [seg] in arena then arena
    else Listed(arena, ks, DirChild(seg))
  }

  ghost function AddFile(arena: Arena, ks: seq<string>, name: string): Arena
    requires ks in arena
  {
    Listed(arena, ks, FileChild(name))
  }

  /** The fold's inner loop and its last step. */
  ghost function Add(arena: Arena, ks: seq<string>, segs: seq<string>): Arena
    requires ks in arena && segs != []
    decreases |segs|
  {
    if |segs| == 1 then AddFile(arena, ks, segs[0])
    else Add(Enter(arena, ks, segs[0]), ks + [segs[0]], segs[1..])
  }

  lemma ListedParents(arena: Arena, ks: seq<string>, child: Child, ls: seq<string>, n: string)
    requires ks in arena && ls + [n] in Listed(arena, ks, child)
    requires ls + [n] in arena ==> ls in arena && DirChild(n) in arena[ls]
    requires ks + [child.name] !in arena
    ensures ls in Listed(arena, ks, child) && DirChild(n) in Listed(arena, ks, child)[ls]
  {
    var kid, a := ks + [child.name], Listed(arena, ks, child);
    assert kid != ks;
    assert a[ks] == arena[ks] + [child];
    if ls + [n] !in arena {
      assert (ls + [n])[..|ks|] == ks && (ls + [n])[|ks|] == child.name;
    }
  }

  lemma ListedClosed(arena: Arena, ks: seq<string>, child: Child, depth: nat)
    requires Closed(arena, depth) && ks in arena && child.DirChild?
    requires |ks| < depth && ks + [child.name] !in arena
    ensures Closed(Listed(arena, ks, child), depth)
  {
    var kid, a := ks + [child.name], Listed(arena, ks, child);
    assert kid != ks;
    forall ls, n | ls + [n] in a ensures ls in a && DirChild(n) in a[ls] {
      ListedParents(arena, ks, child, ls, n);
    }
    forall ls, c: Child | ls in a && c in a[ls] && c.DirChild? ensures ls + [c.name] in a {
    }
  }

  lemma FileClosed(arena: Arena, ks: seq<string>, name: string, depth: nat)
    requires Closed(arena, depth) && ks in arena
    ensures Closed(Listed(arena, ks, FileChild(name)), depth)
  {
    var a := Listed(arena, ks, FileChild(name));
    forall ls, n | ls + [n] in a ensures ls in a && DirChild(n) in a[ls] {
      assert ls + [n] in arena;
    }
  }

  /** Listing a file, or a directory that has no key yet, keeps the agreement. */
  lemma ListedOk(arena: Arena, ks: seq<string>, child: Child, depth: nat)
    requires ArenaOk(arena, depth) && ks in arena
    requires child.DirChild? ==> |ks| < depth && ks + [child.name] !in arena
    ensures ArenaOk(Listed(arena, ks, child), depth)
  {
    if child.DirChild? {
      assert child !in arena[ks];
      ListedClosed(arena, ks, child, depth);
    } else {
      FileClosed(arena, ks, child.name, depth);
    }
    hide Closed;
    forall ls <- Listed(arena, ks, child) ensures ListedOnce(Listed(arena, ks, child)[ls]) {
      assert ls in arena ==> ListedOnce(arena[ls]);
    }
  }

  lemma EnterOk(arena: Arena, ks: seq<string>, seg: string, depth: nat)
    requires ArenaOk(arena, depth) && ks in arena && |ks| < depth
    ensures ArenaOk(Enter(arena, ks, seg), depth) && ks + [seg] in Enter(arena, ks, seg)
  {
    if ks + [seg] !in arena { ListedOk(arena, ks, DirChild(seg), depth); }
  }

  lemma AddFileOk(arena: Arena, ks: seq<string>, name: string, depth: nat)
    requires ArenaOk(arena, depth) && ks in arena
    ensures ArenaOk(AddFile(arena, ks, name), depth)
  {
    ListedOk(arena, ks, FileChild(name), depth);
  }

  lemma {:induction false} AddOk(arena: Arena, ks: seq<string>, segs: seq<string>, depth: nat)
    requires ArenaOk(arena, depth) && ks in arena && segs != [] && |ks| + |segs| <= depth + 1
    ensures ArenaOk(Add(arena, ks, segs), depth)
    decreases |segs|
  {
    if |segs| == 1 {
      AddFileOk(arena, ks, segs[0], depth);
    } else {
      EnterOk(arena, ks, segs[0], depth);
      AddOk(Enter(arena, ks, segs[0]), ks + [segs[0]], segs[1..], depth);
    }
  }

  lemma PrefixTransitive(p: seq<string>, q: seq<string>, s: seq<string>)
    requires IsPrefix(p, q)
    ensures IsPrefix(q, s) ==> IsPrefix(p, s)
  {
    if IsPrefix(q, s) { assert s[..|p|] == s[..|q|][..|p|]; }
  }

  /** Adding below `ks` touches only keys that extend `ks`. */
  lemma {:induction false} AddIsLocal(arena: Arena, ks: seq<string>, segs: seq<string>, other: seq<string>)
    requires ks in arena && segs != [] && !IsPrefix(ks, other)
    ensures other in Add(arena, ks, segs) <==> other in arena
    ensures other in arena ==> Add(arena, ks, segs)[other] == arena[other]
    decreases |segs|
  {
    if |segs| > 1 {
      var kid := ks + [segs[0]];
      assert IsPrefix(ks, kid) && IsPrefix(ks, ks);
      PrefixTransitive(ks, kid, other);
      AddIsLocal(Enter(arena, ks, segs[0]), kid, segs[1..], other);
    }
  }

  /** Building reads only the keys that extend the listed directories. */
  lemma {:induction false} BuildFrame(a: Arena, b: Arena, ks: seq<string>, children: seq<Child>, depth: nat)
    requires forall c <- children, other :: c.DirChild? && IsPrefix(ks + [c.name], other) ==>
               (other in a <==> other in b) && (other in a ==> a[other] == b[other])
    ensures Build(a, ks, children, depth) == Build(b, ks, children, depth)
    decreases depth, |children|
  {
    if children != [] {
      var kid := ks + [children[0].name];
      BuildFrame(a, b, ks, children[1..], depth);
      if children[0].DirChild? {
        assert children[0] in children && IsPrefix(kid, kid);
        if depth > 0 && kid in a {
          forall c <- a[kid], other | c.DirChild? && IsPrefix(kid + [c.name], other)
            ensures (other in a <==> other in b) && (other in a ==> a[other] == b[other])
          {
            assert other[..|kid|] == other[..|kid| + 1][..|kid|] == kid;
          }
          BuildFrame(a, b, kid, a[kid], depth - 1);
        }
      }
    }
  }

  lemma {:induction false} BuildConcat(arena: Arena, ks: seq<string>, x: seq<Child>, y: seq<Child>, depth: nat)
    ensures Build(arena, ks, x + y, depth) == Build(arena, ks, x, depth) + Build(arena, ks, y, depth)
    decreases |x|
  {
    if x == [] {
      assert x + y == y;
    } else {
      BuildConcat(arena, ks, x[1..], y, depth);
      assert (x + y)[1..] == x[1..] + y;
    }
  }

  /** `a` and `b` agree on every key but `ks` and those that extend `kid`. */
  ghost predicate AgreeOutside(a: Arena, b: Arena, ks: seq<string>, kid: seq<string>) {
    forall other :: other != ks && !IsPrefix(kid, other) ==>
      (other in a <==> other in b) && (other in a ==> a[other] == b[other])
  }

  lemma BuildOutside(a: Arena, b: Arena, ks: seq<string>, seg: string, children: seq<Child>, depth: nat)
    requires AgreeOutside(a, b, ks, ks + [seg]) && DirChild(seg) !in children
    ensures Build(a, ks, children, depth) == Build(b, ks, children, depth)
  {
    forall c <- children, other | c.DirChild? && IsPrefix(ks + [c.name], other)
      ensures (other in a <==> other in b) && (other in a ==> a[other] == b[other])
    {
      assert other[..|ks| + 1][|ks|] == c.name;
      assert (ks + [seg])[|ks|] == seg;
    }
    BuildFrame(a, b, ks, children, depth);
  }

  lemma {:induction false} BuildDirInsert(a: Arena, after: Arena, ks: seq<string>, children: seq<Child>,
      segs: seq<string>,
                                          was: seq<Node>, depth: nat)
    requires |segs| > 1 && depth > 0 && AgreeOutside(a, after, ks, ks + [segs[0]])
    requires var kid := ks + [segs[0]];
             && kid in after && Build(after, kid, after[kid], depth - 1) == Insert(was, segs[1..])
             && (kid in a ==> was == Build(a, kid, a[kid], depth - 1))
             && (kid in a <==> DirChild(segs[0]) in children) && (kid !in a ==> was == [])
    requires ListedOnce(children)
    ensures var now := if DirChild(segs[0]) in children then children else children + [DirChild(segs[0])];
            Build(after, ks, now, depth) == InsertDir(Build(a, ks, children, depth), segs)
    decreases |children|
  {
    var seg := segs[0];
    var kid, dir := ks + [seg], DirChild(seg);
    if children == [] {
      assert children + [dir] == [dir] && [dir][1..] == [];
      assert Build(after, ks, [], depth) == [];
    } else {
      var rest := children[1..];
      assert children == [children[0]] + rest;
      if children[0] == dir {
        BuildOutside(a, after, ks, seg, rest, depth);
        assert Build(a, ks, children, depth)[1..] == Build(a, ks, rest, depth);
      } else {
        BuildDirInsert(a, after, ks, rest, segs, was, depth);
        BuildOutside(a, after, ks, seg, [children[0]], depth);
        var head := Build(a, ks, [children[0]], depth);
        assert |head| == 1 && Build(a, ks, children, depth) == head + Build(a, ks, rest, depth) by {
          BuildConcat(a, ks, [children[0]], rest, depth);
        }
        var now := if dir in children then rest else rest + [dir];
        BuildConcat(after, ks, [children[0]], now, depth);
        assert [children[0]] + now == if dir in children then children else children + [dir];
        assert (head + Build(a, ks, rest, depth))[1..] == Build(a, ks, rest, depth);
      }
    }
  }

  lemma AddAgrees(arena: Arena, ks: seq<string>, segs: seq<string>)
    requires ks in arena && |segs| > 1
    ensures AgreeOutside(arena, Add(arena, ks, segs), ks, ks + [segs[0]])
  {
    var entered, kid := Enter(arena, ks, segs[0]), ks + [segs[0]];
    forall other | other != ks && !IsPrefix(kid, other)
      ensures (other in arena <==> other in Add(arena, ks, segs)) &&
              (other in arena ==> arena[other] == Add(arena, ks, segs)[other])
    {
      assert IsPrefix(kid, kid);
      AddIsLocal(entered, kid, segs[1..], other);
    }
  }

  /** What adding below one of its directories leaves of directory `ks` itself. */
  lemma BelowArena(arena: Arena, ks: seq<string>, segs: seq<string>, depth: nat)
    requires ArenaOk(arena, depth) && ks in arena && |segs| > 1 && |ks| + |segs| <= depth + 1
    ensures var entered, kid, after := Enter(arena, ks, segs[0]), ks + [segs[0]], Add(arena, ks, segs);
            && after == Add(entered, kid, segs[1..])
            && (kid in arena <==> DirChild(segs[0]) in arena[ks]) && ListedOnce(arena[ks])
            && ks in after && after[ks] == (if kid in arena then arena[ks] else arena[ks] + [DirChild(segs[0])])
            && kid in entered && (kid in arena ==> entered == arena)
            && (kid !in arena ==> entered[kid] == [] && Build(entered, kid, entered[kid], depth - |kid|) == [])
    ensures forall siblings :: Insert(siblings, segs) == InsertDir(siblings, segs)
  {
    var entered, kid := Enter(arena, ks, segs[0]), ks + [segs[0]];
    assert !IsPrefix(kid, ks);
    AddIsLocal(entered, kid, segs[1..], ks);
  }

  /** The step of the next lemma, from a directory to the one below it. */
  lemma BuildAddBelow(arena: Arena, ks: seq<string>, segs: seq<string>, depth: nat)
    requires ArenaOk(arena, depth) && ks in arena && |segs| > 1 && |ks| + |segs| <= depth + 1
    requires var entered, kid := Enter(arena, ks, segs[0]), ks + [segs[0]];
             var after := Add(entered, kid, segs[1..]);
             && kid in after
             && Build(after, kid, after[kid], depth - |kid|) ==
                 Insert(Build(entered, kid, entered[kid], depth - |kid|), segs[1..])
    ensures var after := Add(arena, ks, segs);
            && ks in after
            && Build(after, ks, after[ks], depth - |ks|) == Insert(Build(arena, ks, arena[ks], depth - |ks|), segs)
  {
    hide Build, Insert, InsertDir, Add, Enter, ArenaOk, AgreeOutside;
    var kid := ks + [segs[0]];
    var entered := Enter(arena, ks, segs[0]);
    BelowArena(arena, ks, segs, depth);
    AddAgrees(arena, ks, segs);
    BuildDirInsert(arena, Add(arena, ks, segs), ks, arena[ks], segs,
        Build(entered, kid, entered[kid], depth - |ks| - 1), depth - |ks|);
  }

  /** The freshly added path shows up where the fold on values puts it. */
  lemma {:induction false} BuildAdd(arena: Arena, ks: seq<string>, segs: seq<string>, depth: nat)
    requires ArenaOk(arena, depth) && ks in arena && segs != [] && |ks| + |segs| <= depth + 1
    ensures var after := Add(arena, ks, segs);
            && ks in after
            && Build(after, ks, after[ks], depth - |ks|) == Insert(Build(arena, ks, arena[ks], depth - |ks|), segs)
    decreases |segs|
  {
    if |segs| == 1 {
      AddLast(arena, ks, segs[0]);
      assert segs == [segs[0]];
      hide Build, Add, ArenaOk;
      BuildFile(arena, ks, segs[0], depth - |ks|);
    } else {
      hide Build, Add, Insert, ArenaOk;
      EnterOk(arena, ks, segs[0], depth);
      BuildAdd(Enter(arena, ks, segs[0]), ks + [segs[0]], segs[1..], depth);
      BuildAddBelow(arena, ks, segs, depth);
    }
  }

  lemma BuildFile(arena: Arena, ks: seq<string>, name: string, depth: nat)
    requires ks in arena
    ensures var after := AddFile(arena, ks, name);
            Build(after, ks, after[ks], depth) == Insert(Build(arena, ks, arena[ks], depth), [name])
  {
    var after := AddFile(arena, ks, name);
    BuildConcat(after, ks, arena[ks], [FileChild(name)], depth);
    assert [FileChild(name)][1..] == [] && Build(after, ks, [], depth) == [];
    BuildFrame(arena, after, ks, arena[ks], depth);
  }

  // ---- nodes and keys -----------------------------------------------------

  type Nodes = map<seq<string>, TreeNode>

  /** `node`'s child list reads as `children`. */
  ghost predicate RowShows(at: Nodes, children: seq<Child>, ks: seq<string>, node: TreeNode, nodes: set<TreeNode>)
    requires node in nodes
    reads nodes
  {
    && |node.children| == |children|
    && forall i :: 0 <= i < |children| ==>
         var kid := node.children[i];
         && kid in nodes && kid.name == children[i].name
         && (children[i].FileChild? ==> !kid.isDir && kid.children == [])
         && (children[i].DirChild? ==> ks + [kid.name] in at && kid == at[ks + [kid.name]])
  }

  /** The directory nodes hold the arena. */
  ghost predicate Holds(at: Nodes, arena: Arena, nodes: set<TreeNode>)
    reads nodes
  {
    && at.Keys == arena.Keys
    && (forall ks <- at :: at[ks] in nodes && at[ks].isDir && RowShows(at, arena[ks], ks, at[ks], nodes))
    && (forall ks <- at, ls <- at :: ks != ls ==> at[ks] != at[ls])
  }

  function KeyOf(ks: seq<string>): string { Join(ks, "/") }

  function UnkeyOf(key: string): seq<string> { if key == "" then [] else Split(key, '/') }

  ghost predicate GoodKey(ks: seq<string>) {
    (forall k <- ks :: '/' !in k) && (ks != [] ==> ks[0] != "")
  }

  /** The source's string-keyed map finds the same nodes. */
  ghost predicate Keyed(dirs: map<string, TreeNode>, at: Nodes) {
    FindsAll(dirs, at) && forall key <- dirs :: UnkeyOf(key) in at
  }

  ghost predicate FindsAll(dirs: map<string, TreeNode>, at: Nodes) {
    forall ks <- at :: GoodKey(ks) && KeyOf(ks) in dirs && dirs[KeyOf(ks)] == at[ks]
  }

  lemma KeyRoundTrip(ks: seq<string>)
    requires GoodKey(ks)
    ensures UnkeyOf(KeyOf(ks)) == ks && (KeyOf(ks) == "" <==> ks == [])
  {
    if ks != [] {
      assert ks[0] in ks;
      SplitJoin(ks, '/');
      assert Split("", '/') == [""];
    }
  }

  lemma KeyStep(ks: seq<string>, seg: string)
    requires GoodKey(ks) && '/' !in seg && (ks != [] || seg != "")
    ensures GoodKey(ks + [seg])
    ensures KeyOf(ks + [seg]) == if KeyOf(ks) != "" then KeyOf(ks) + "/" + seg else seg
  {
    KeyRoundTrip(ks);
    if ks == [] {
      assert ks + [seg] == [seg];
    } else {
      JoinConcat(ks, [seg], "/");
    }
  }

  lemma Lookup(dirs: map<string, TreeNode>, at: Nodes, ks: seq<string>)
    requires Keyed(dirs, at) && GoodKey(ks)
    ensures KeyOf(ks) in dirs <==> ks in at
    ensures ks in at ==> dirs[KeyOf(ks)] == at[ks]
  {
    KeyRoundTrip(ks);
  }

  lemma FindsAdded(dirs: map<string, TreeNode>, at: Nodes, ks: seq<string>, node: TreeNode)
    requires FindsAll(dirs, at) && GoodKey(ks) && ks !in at
    ensures FindsAll(dirs[KeyOf(ks) := node], at[ks := node])
  {
    KeyRoundTrip(ks);
    forall ls <- at ensures KeyOf(ls) != KeyOf(ks) {
      KeyRoundTrip(ls);
    }
  }

  lemma KeyedAdd(dirs: map<string, TreeNode>, at: Nodes, ks: seq<string>, node: TreeNode)
    requires Keyed(dirs, at) && GoodKey(ks) && ks !in at
    ensures Keyed(dirs[KeyOf(ks) := node], at[ks := node])
  {
    FindsAdded(dirs, at, ks, node);
    KeyRoundTrip(ks);
  }

  lemma {:induction false} BuildAt(arena: Arena, ks: seq<string>, children: seq<Child>, depth: nat, i: nat)
    requires i < |children|
    ensures |Build(arena, ks, children, depth)| == |children|
    ensures Build(arena, ks, children, depth)[i] == Build(arena, ks, [children[i]], depth)[0]
    decreases |children|
  {
    assert Build(arena, ks, [], depth) == [];
    if |children| == 1 {
      assert children == [children[0]];
    } else if i > 0 {
      BuildAt(arena, ks, children[1..], depth, i - 1);
    } else {
      BuildAt(arena, ks, children[1..], depth, 0);
    }
  }

  /** Nodes that hold the arena show the tree it builds. */
  lemma {:induction false} HoldsShows(at: Nodes, arena: Arena, nodes: set<TreeNode>, ks: seq<string>, depth: nat)
    requires Holds(at, arena, nodes) && (forall ls <- arena :: |ls| <= depth) && ks in at
    ensures Shows(at[ks], Dir(at[ks].name, Build(arena, ks, arena[ks], depth - |ks|)), nodes)
    decreases depth - |ks|
  {
    var node, children := at[ks], arena[ks];
    assert ks in arena;
    var below := Build(arena, ks, children, depth - |ks|);
    assert RowShows(at, children, ks, node, nodes);
    forall i | 0 <= i < |children| ensures |below| == |children| && Shows(node.children[i], below[i], nodes) {
      BuildAt(arena, ks, children, depth - |ks|, i);
      var kid := ks + [children[i].name];
      if children[i].DirChild? {
        assert kid in arena;
        HoldsShows(at, arena, nodes, kid, depth);
      }
    }
    if children == [] { assert below == []; }
  }

  // ---- the method ---------------------------------------------------------

  ghost function MaxSegments(paths: seq<string>): nat {
    if paths == [] then 0
    else
      var m, n := MaxSegments(paths[1..]), |Split(paths[0], '/')|;
      if n > m then n else m
  }

  lemma {:induction false} MaxSegmentsBounds(paths: seq<string>, i: nat)
    requires i < |paths|
    ensures |Split(paths[i], '/')| <= MaxSegments(paths)
  {
    if i > 0 { MaxSegmentsBounds(paths[1..], i - 1); }
  }

  /** The segments still to add once the walk stands in `ks`. */
  function Rest(ks: seq<string>, segs: seq<string>): (r: seq<string>)
    requires segs != []
    ensures r != []
  {
    if ks == [] then Strip(segs) else segs
  }

  /** Everything the fold keeps between two steps. */
  ghost predicate Folding(dirs: map<string, TreeNode>, at: Nodes, arena: Arena, nodes: set<TreeNode>, depth: nat)
    reads nodes
  {
    ArenaOk(arena, depth) && Holds(at, arena, nodes) && Keyed(dirs, at)
  }

  /** Pushing a new node changes one directory's row and no other. */
  method Push(parent: TreeNode, node: TreeNode, ghost child: Child,
              ghost at: Nodes, ghost arena: Arena, ghost nodes: set<TreeNode>, ghost ks: seq<string>)
    requires Holds(at, arena, nodes) && ks in at && parent == at[ks]
    requires node !in nodes && node.children == [] && node.name == child.name && node.isDir == child.DirChild?
    requires child.DirChild? ==> ks + [child.name] !in at
    modifies parent`children
    ensures var at' := if child.DirChild? then at[ks + [child.name] := node] else at;
            Holds(at', Listed(arena, ks, child), nodes + {node})
  {
    ghost var at' := if child.DirChild? then at[ks + [child.name] := node] else at;
    parent.children := parent.children + [node];
    forall ls <- at ensures RowShows(at', Listed(arena, ks, child)[ls], ls, at[ls], nodes + {node}) {
      assert old(RowShows(at, arena[ls], ls, at[ls], nodes));
      if ls != ks { assert at[ls] != parent; }
    }
  }

  lemma HoldsKeys(at: Nodes, arena: Arena, nodes: set<TreeNode>, ks: seq<string>)
    requires Holds(at, arena, nodes)
    ensures ks in at <==> ks in arena
    ensures ks in at ==> at[ks] in nodes
  {
    if ks in at.Keys {}
  }

  lemma DirAdded(dirs: map<string, TreeNode>, at: Nodes, arena: Arena, nodes: set<TreeNode>, ks: seq<string>,
      seg: string,
                 dir: TreeNode, depth: nat)
    requires ArenaOk(arena, depth) && Keyed(dirs, at) && ks in arena && |ks| < depth
    requires ks + [seg] !in arena && ks + [seg] !in at && GoodKey(ks + [seg])
    requires Holds(at[ks + [seg] := dir], Listed(arena, ks, DirChild(seg)), nodes + {dir})
    ensures Folding(dirs[KeyOf(ks + [seg]) := dir], at[ks + [seg] := dir], Enter(arena, ks, seg), nodes + {dir}, depth)
  {
    hide ArenaOk, Keyed, Holds, GoodKey, KeyOf, Listed;
    EnterOk(arena, ks, seg, depth);
    KeyedAdd(dirs, at, ks + [seg], dir);
  }

  /** One step down: the node of directory `ks + [seg]`, made if it is missing. */
  method EnterDir(dirs: map<string, TreeNode>, key: string, seg: string, parent: TreeNode,
                  ghost at: Nodes, ghost arena: Arena, ghost nodes: set<TreeNode>, ghost ks: seq<string>,
                      ghost depth: nat)
    returns (dir: TreeNode, dirs': map<string, TreeNode>, ghost at': Nodes, ghost nodes': set<TreeNode>)
    requires Folding(dirs, at, arena, nodes, depth) && ks in at && ks in arena
    requires parent == at[ks] && |ks| < depth && GoodKey(ks + [seg]) && key == KeyOf(ks + [seg])
    modifies parent`children
    ensures Folding(dirs', at', Enter(arena, ks, seg), nodes', depth)
    ensures ks + [seg] in at' && dir == at'[ks + [seg]] && dir in nodes'
    ensures nodes' == nodes || (fresh(dir) && nodes' == nodes + {dir})
    ensures at' == at || at' == at[ks + [seg] := dir]
  {
    hide ArenaOk, Keyed, Holds, GoodKey, KeyOf, Listed;
    ghost var kid := ks + [seg];
    HoldsKeys(at, arena, nodes, kid);
    Lookup(dirs, at, kid);
    if key in dirs { return dirs[key], dirs, at, nodes; }
    dir := new TreeNode(seg, true);
    Push(parent, dir, DirChild(seg), at, arena, nodes, ks);
    DirAdded(dirs, at, arena, nodes, ks, seg, dir, depth);
    dirs', at', nodes' := dirs[key := dir], at[kid := dir], nodes + {dir};
  }

  method AddLeaf(parent: TreeNode, name: string, ghost dirs: map<string, TreeNode>,
                 ghost at: Nodes, ghost arena: Arena, ghost nodes: set<TreeNode>, ghost ks: seq<string>,
                     ghost depth: nat)
    returns (ghost nodes': set<TreeNode>)
    requires Folding(dirs, at, arena, nodes, depth) && ks in at && parent == at[ks]
    modifies parent`children
    ensures ks in arena && Folding(dirs, at, AddFile(arena, ks, name), nodes', depth)
    ensures exists leaf :: fresh(leaf) && nodes' == nodes + {leaf}
  {
    hide ArenaOk, Keyed, Holds;
    HoldsKeys(at, arena, nodes, ks);
    AddFileOk(arena, ks, name, depth);
    var file := new TreeNode(name, false);
    Push(parent, file, FileChild(name), at, arena, nodes, ks);
    nodes' := nodes + {file};
  }

  lemma FoldingStart(root: TreeNode, depth: nat)
    requires root.isDir && root.children == []
    ensures Folding(map["" := root], map[[] := root], map[[] := []], {root}, depth)
  {
  }

  lemma AddSkips(arena: Arena, segs: seq<string>)
    requires [] in arena && |segs| > 1 && segs[0] == ""
    ensures Add(arena, [], Rest([], segs)) == Add(arena, [], Rest([], segs[1..]))
  {
  }

  lemma AddEnters(arena: Arena, ks: seq<string>, segs: seq<string>)
    requires ks in arena && |segs| > 1 && (ks != [] || segs[0] != "")
    ensures ks + [segs[0]] in Enter(arena, ks, segs[0])
    ensures Add(arena, ks, Rest(ks, segs)) ==
        Add(Enter(arena, ks, segs[0]), ks + [segs[0]], Rest(ks + [segs[0]], segs[1..]))
  {
  }

  /** One path of the fold: the walk down its directories and the file at the end. */
  method AddPath(root: TreeNode, dirs: map<string, TreeNode>, path: string,
                 ghost at: Nodes, ghost arena: Arena, ghost nodes: set<TreeNode>, ghost depth: nat)
    returns (dirs': map<string, TreeNode>, ghost at': Nodes, ghost nodes': set<TreeNode>)
    requires Folding(dirs, at, arena, nodes, depth) && [] in at && at[[]] == root && [] in arena
    requires |Split(path, '/')| <= depth
    modifies nodes
    ensures Folding(dirs', at', Add(arena, [], Segments(path)), nodes', depth)
    ensures [] in at' && at'[[]] == root && fresh(nodes' - nodes)
  {
    hide ArenaOk, Holds, Keyed, FindsAll, GoodKey, KeyOf, Add, Enter, Rest;
    var segs := Split(path, '/');
    var key, parent := "", root;
    ghost var ks, now := [], arena;
    dirs', at', nodes' := dirs, at, nodes;
    assert segs[0..] == segs;
    KeyRoot();
    HoldsKeys(at, arena, nodes, []);
    for i := 0 to |segs| - 1
      invariant Folding(dirs', at', now, nodes', depth) && fresh(nodes' - nodes)
      invariant [] in at' && at'[[]] == root
      invariant GoodKey(ks) && key == KeyOf(ks) && ks in at' && parent == at'[ks] && ks in now && parent in nodes'
      invariant |ks| <= i
      invariant Add(now, ks, Rest(ks, segs[i..])) == Add(arena, [], Segments(path))
    {
      KeyRoundTrip(ks);
      assert segs[i] in segs && segs[i..][1..] == segs[i + 1..];
      key := if key != "" then key + "/" + segs[i] else segs[i];
      if key == "" {
        // An empty first segment: the map's root key answers.
        AddSkips(now, segs[i..]);
        Lookup(dirs', at', []);
        HoldsKeys(at', now, nodes', []);
        parent := dirs'[key];
      } else {
        KeyStep(ks, segs[i]);
        AddEnters(now, ks, segs[i..]);
        parent, dirs', at', nodes' := EnterDir(dirs', key, segs[i], parent, at', now, nodes', ks, depth);
        now, ks := Enter(now, ks, segs[i]), ks + [segs[i]];
      }
    }
    var name := segs[|segs| - 1];
    nodes' := AddLeaf(parent, name, dirs', at', now, nodes', ks, depth);
    assert segs[|segs| - 1..] == [name];
    AddLast(now, ks, name);
  }

  lemma KeyRoot()
    ensures GoodKey([]) && KeyOf([]) == "" && forall segs: seq<string> :: segs != [] ==> Rest([], segs) == Strip(segs)
  {
  }

  lemma AddLast(arena: Arena, ks: seq<string>, name: string)
    requires ks in arena
    ensures Add(arena, ks, Rest(ks, [name])) == AddFile(arena, ks, name)
  {
  }

  method FoldTree(rootName: string, paths: seq<string>) returns (root: TreeNode, ghost nodes: set<TreeNode>)
    ensures fresh(root) && Shows(root, Dir(rootName, Fold(paths)), nodes)
  {
    hide ArenaOk, Holds, Keyed, Add, Build;
    root := new TreeNode(rootName, true);
    var dirs: map<string, TreeNode> := map["" := root];
    ghost var at: Nodes, arena: Arena, depth := map[[] := root], map[[] := []], MaxSegments(paths);
    nodes := {root};
    FoldingStart(root, depth);
    BuildNothing(arena, depth);
    for p := 0 to |paths|
      invariant fresh(nodes) && root.name == rootName && [] in at && at[[]] == root && [] in arena
      invariant Folding(dirs, at, arena, nodes, depth)
      invariant Build(arena, [], arena[[]], depth) == Fold(paths[..p])
    {
      MaxSegmentsBounds(paths, p);
      BuildAdd(arena, [], Segments(paths[p]), depth);
      assert paths[..p + 1][..p] == paths[..p];
      dirs, at, nodes := AddPath(root, dirs, paths[p], at, arena, nodes, depth);
      arena := Add(arena, [], Segments(paths[p]));
    }
    assert paths[..|paths|] == paths;
    FoldingShows(dirs, at, arena, nodes, depth);
  }

  lemma BuildNothing(arena: Arena, depth: nat)
    ensures Build(arena, [], [], depth) == []
  {
  }

  lemma ArenaBounded(arena: Arena, depth: nat)
    requires ArenaOk(arena, depth)
    ensures forall ks <- arena :: |ks| <= depth
  {
  }

  lemma FoldingShows(dirs: map<string, TreeNode>, at: Nodes, arena: Arena, nodes: set<TreeNode>, depth: nat)
    requires Folding(dirs, at, arena, nodes, depth) && [] in at && [] in arena
    ensures Shows(at[[]], Dir(at[[]].name, Build(arena, [], arena[[]], depth)), nodes)
  {
    hide ArenaOk, Holds, Keyed, Shows, Build;
    ArenaBounded(arena, depth);
    HoldsShows(at, arena, nodes, [], depth);
  }
}
