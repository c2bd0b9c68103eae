/** The string operations of JavaScript that the broker's codecs are built on:
    `split` on one character, `join`, `trim`, byte length, and the default
    (UTF-16 code unit) sort. */
module JsText {
  import opened Wrappers

  /** JavaScript truthiness of an optional string. */
  predicate Truthy(s: Option<string>) { s.Some? && s.value != "" }

  lemma Regroup<T>(a: seq<T>, b: seq<T>, c: seq<T>)
    ensures a + (b + c) == (a + b) + c
  {
  }

  // ---- trim ---------------------------------------------------------------

  /** The characters `String.prototype.trim` removes: ECMAScript WhiteSpace and
      LineTerminator. */
  predicate IsSpace(c: char) {
    || '\U{0009}' <= c <= '\U{000D}'
    || c in {' ', '\U{00A0}', '\U{1680}', '\U{2028}', '\U{2029}', '\U{202F}', '\U{205F}', '\U{3000}', '\U{FEFF}'}
    || '\U{2000}' <= c <= '\U{200A}'
  }

  function TrimStart(s: string): string {
    if s != "" && IsSpace(s[0]) then TrimStart(s[1..]) else s
  }

  function TrimEnd(s: string): string {
    if s != "" && IsSpace(s[|s| - 1]) then TrimEnd(s[..|s| - 1]) else s
  }

  function Trim(s: string): string {
    TrimEnd(TrimStart(s))
  }

  predicate Blank(s: string) { forall c <- s :: IsSpace(c) }

  lemma {:induction false} BlankFront(left: string, s: string)
    requires Blank(left) && s != "" && !IsSpace(s[0])
    ensures TrimStart(left + s) == s
  {
    if left == "" {
      assert left + s == s;
    } else {
      assert left[0] in left && (left + s)[1..] == left[1..] + s && forall c <- left[1..] :: c in left;
      BlankFront(left[1..], s);
    }
  }

  lemma {:induction false} BlankBack(s: string, right: string)
    requires Blank(right) && s != "" && !IsSpace(s[|s| - 1])
    ensures TrimEnd(s + right) == s
  {
    if right == "" {
      assert s + right == s;
    } else {
      var k := |right| - 1;
      assert right[k] in right && (s + right)[..|s + right| - 1] == s + right[..k];
      assert forall c <- right[..k] :: c in right;
      BlankBack(s, right[..k]);
    }
  }

  /** Trimming takes the blanks around a text and nothing else. */
  lemma TrimsBlanks(left: string, s: string, right: string)
    requires Blank(left) && Blank(right) && s != "" && !IsSpace(s[0]) && !IsSpace(s[|s| - 1])
    ensures Trim(left + s + right) == s
  {
    assert left + s + right == left + (s + right) && (s + right)[0] == s[0];
    BlankFront(left, s + right);
    BlankBack(s, right);
  }

  lemma {:induction false} BlankTrims(s: string)
    requires Blank(s)
    ensures TrimStart(s) == ""
  {
    if s != "" {
      assert s[0] in s && forall c <- s[1..] :: c in s;
      BlankTrims(s[1..]);
    }
  }

  // ---- byte length --------------------------------------------------------

  /** Bytes one character takes in UTF-8. */
  function Utf8Len(c: char): nat {
    if c as int < 0x80 then 1 else if c as int < 0x800 then 2 else if c as int < 0x1_0000 then 3 else 4
  }

  function ByteLength(s: string): nat {
    if s == "" then 0 else Utf8Len(s[0]) + ByteLength(s[1..])
  }

  lemma {:induction false} ByteLengthConcat(a: string, b: string)
    ensures ByteLength(a + b) == ByteLength(a) + ByteLength(b)
  {
    if a == "" {
      assert a + b == b;
    } else {
      ByteLengthConcat(a[1..], b);
      assert (a + b)[1..] == a[1..] + b;
    }
  }

  // ---- split and join -----------------------------------------------------

  /** `s.split(c)`: the stretches of `s` between occurrences of `c`. */
  function Split(s: string, c: char): (parts: seq<string>)
    ensures |parts| >= 1
    ensures forall p <- parts :: c !in p
  {
    if s == "" then [""]
    else
      var rest := Split(s[1..], c);
      if s[0] == c then [""] + rest else [[s[0]] + rest[0]] + rest[1..]
  }

  /** `parts.join(sep)`. */
  function Join(parts: seq<string>, sep: string): string {
    if parts == [] then ""
    else if |parts| == 1 then parts[0]
    else parts[0] + sep + Join(parts[1..], sep)
  }

  lemma {:induction false} SplitNone(s: string, c: char)
    requires c !in s
    ensures Split(s, c) == [s]
  {
    if s != "" {
      SplitNone(s[1..], c);
      assert [s[0]] + s[1..] == s;
    }
  }

  /** The pieces `l` followed by the pieces `r`, with the last of one glued to
      the first of the other. */
  function Glue(l: seq<string>, r: seq<string>): seq<string>
    requires l != [] && r != []
  {
    l[..|l| - 1] + [l[|l| - 1] + r[0]] + r[1..]
  }

  lemma GlueCons(x: string, t: seq<string>, r: seq<string>)
    requires t != [] && r != []
    ensures Glue([x] + t, r) == [x] + Glue(t, r)
  {
    assert ([x] + t)[..|t|] == [x] + t[..|t| - 1];
  }

  lemma GlueHead(c: char, t: seq<string>, r: seq<string>)
    requires t != [] && r != []
    ensures Glue([[c] + t[0]] + t[1..], r) == [[c] + Glue(t, r)[0]] + Glue(t, r)[1..]
  {
    var g := Glue(t, r);
    if |t| == 1 {
      assert [[c] + t[0]] + t[1..] == [[c] + t[0]];
      assert ([c] + t[0]) + r[0] == [c] + (t[0] + r[0]);
      assert g == [t[0] + r[0]] + r[1..];
    } else {
      GlueCons([c] + t[0], t[1..], r);
      assert t == [t[0]] + t[1..];
      GlueCons(t[0], t[1..], r);
    }
  }

  /** Splitting a concatenation glues the last piece of one side to the first
      piece of the other and keeps every other piece. */
  lemma {:induction false} SplitConcat(a: string, b: string, c: char)
    ensures Split(a + b, c) == Glue(Split(a, c), Split(b, c))
  {
    var r := Split(b, c);
    if a == "" {
      assert a + b == b;
      assert "" + r[0] == r[0];
      assert Glue([""], r) == r;
    } else {
      SplitConcat(a[1..], b, c);
      assert (a + b)[1..] == a[1..] + b && (a + b)[0] == a[0];
      var t := Split(a[1..], c);
      if a[0] == c {
        GlueCons("", t, r);
      } else {
        GlueHead(a[0], t, r);
      }
    }
  }

  /** A separator splits exactly there. */
  lemma SplitAtSeparator(a: string, c: char, b: string)
    ensures Split(a + [c] + b, c) == Split(a, c) + Split(b, c)
  {
    var l, r := Split(a, c), Split(b, c);
    SplitConcat(a, [c] + b, c);
    assert a + [c] + b == a + ([c] + b);
    assert ([c] + b)[1..] == b;
    assert Split([c] + b, c) == [""] + r;
    assert l[|l| - 1] + "" == l[|l| - 1];
    assert Glue(l, [""] + r) == l + r;
  }

  lemma {:induction false} JoinSplit(s: string, c: char)
    ensures Join(Split(s, c), [c]) == s
  {
    if s != "" {
      JoinSplit(s[1..], c);
      var t := Split(s[1..], c);
      if s[0] == c {
        assert ([""] + t)[1..] == t;
        assert "" + [c] + s[1..] == s;
      } else {
        var l := [[s[0]] + t[0]] + t[1..];
        assert l[1..] == t[1..];
        if |t| == 1 {
          assert [s[0]] + t[0] == s;
        } else {
          assert [s[0]] + t[0] + [c] + Join(t[1..], [c]) == [s[0]] + (t[0] + [c] + Join(t[1..], [c]));
        }
      }
    }
  }

  lemma {:induction false} SplitJoin(parts: seq<string>, c: char)
    requires parts != [] && forall p <- parts :: c !in p
    ensures Split(Join(parts, [c]), c) == parts
  {
    SplitNone(parts[0], c);
    if |parts| > 1 {
      SplitJoin(parts[1..], c);
      SplitAtSeparator(parts[0], c, Join(parts[1..], [c]));
    }
  }

  lemma JoinCons(head: string, rest: seq<string>, sep: string)
    requires rest != []
    ensures Join([head] + rest, sep) == head + sep + Join(rest, sep)
  {
    assert ([head] + rest)[1..] == rest;
  }

  lemma {:induction false} JoinConcat(a: seq<string>, b: seq<string>, sep: string)
    requires a != [] && b != []
    ensures Join(a + b, sep) == Join(a, sep) + sep + Join(b, sep)
  {
    if |a| == 1 {
      assert (a + b)[1..] == b;
    } else {
      JoinConcat(a[1..], b, sep);
      JoinCons(a[0], a[1..], sep);
      JoinCons(a[0], a[1..] + b, sep);
      hide Join;
      assert [a[0]] + a[1..] == a && [a[0]] + (a[1..] + b) == a + b;
      var h := a[0] + sep;
      Regroup(h, Join(a[1..], sep) + sep, Join(b, sep));
      Regroup(h, Join(a[1..], sep), sep);
    }
  }

  // ---- prefixes -----------------------------------------------------------

  predicate StartsWith(s: string, p: string) {
    |p| <= |s| && s[..|p|] == p
  }

  // ---- order and sort -----------------------------------------------------

  /** Position of a character in UTF-16 code unit order: surrogate pairs
      (everything past U+FFFF) sort between U+D7FF and U+E000. */
  function Rank(c: char): int {
    if c as int < 0xE000 then c as int
    else if c as int >= 0x1_0000 then c as int - 0x1_0000 + 0xE000
    else c as int + 0x10_0000
  }

  lemma RankInjective(a: char, b: char)
    ensures Rank(a) == Rank(b) <==> a == b
  {
    if Rank(a) == Rank(b) {
      assert a as int == b as int;
      assert (a as int) as char == a && (b as int) as char == b;
    }
  }

  /** The default comparison of `Array.prototype.sort`. */
  predicate Leq(a: string, b: string) {
    a == "" || (b != "" && (Rank(a[0]) < Rank(b[0]) || (a[0] == b[0] && Leq(a[1..], b[1..]))))
  }

  ghost predicate Sorted(xs: seq<string>) {
    forall i, j :: 0 <= i < j < |xs| ==> Leq(xs[i], xs[j])
  }

  lemma {:induction false} LeqTotal(a: string, b: string)
    ensures Leq(a, b) || Leq(b, a)
    ensures Leq(a, b) && Leq(b, a) ==> a == b
  {
    if a != "" && b != "" {
      RankInjective(a[0], b[0]);
      LeqTotal(a[1..], b[1..]);
      assert a == [a[0]] + a[1..] && b == [b[0]] + b[1..];
    }
  }

  lemma {:induction false} LeqTransitive(a: string, b: string, c: string)
    requires Leq(a, b) && Leq(b, c)
    ensures Leq(a, c)
  {
    if a != "" && a[0] == b[0] && b[0] == c[0] {
      LeqTransitive(a[1..], b[1..], c[1..]);
    }
  }

  function IntoSorted(x: string, xs: seq<string>): seq<string> {
    if xs == [] then [x]
    else if Leq(x, xs[0]) then [x] + xs
    else [xs[0]] + IntoSorted(x, xs[1..])
  }

  function Sort(xs: seq<string>): seq<string> {
    if xs == [] then [] else IntoSorted(xs[0], Sort(xs[1..]))
  }

  lemma {:induction false} IntoSortedKeeps(x: string, xs: seq<string>)
    requires Sorted(xs)
    ensures Sorted(IntoSorted(x, xs)) && multiset(IntoSorted(x, xs)) == multiset{x} + multiset(xs)
  {
    if xs == [] {
    } else if Leq(x, xs[0]) {
      forall k | 0 <= k < |xs| ensures Leq(x, xs[k]) {
        if k > 0 { LeqTransitive(x, xs[0], xs[k]); }
      }
    } else {
      var t := IntoSorted(x, xs[1..]);
      IntoSortedKeeps(x, xs[1..]);
      LeqTotal(x, xs[0]);
      assert xs == [xs[0]] + xs[1..];
      forall k | 0 <= k < |t| ensures Leq(xs[0], t[k]) {
        assert t[k] in multiset(t);
        assert t[k] == x || t[k] in xs[1..];
      }
    }
  }

  lemma {:induction false} SortSorts(xs: seq<string>)
    ensures Sorted(Sort(xs)) && multiset(Sort(xs)) == multiset(xs)
  {
    if xs != [] {
      SortSorts(xs[1..]);
      IntoSortedKeeps(xs[0], Sort(xs[1..]));
      assert xs == [xs[0]] + xs[1..];
    }
  }

  lemma FirstIsLeast(a: seq<string>, x: string)
    requires Sorted(a) && x in a
    ensures Leq(a[0], x)
  {
    hide Leq;
    var k :| 0 <= k < |a| && a[k] == x;
    LeqTotal(x, x);
  }

  lemma SortedTail(a: seq<string>)
    requires Sorted(a) && a != []
    ensures Sorted(a[1..]) && multiset(a[1..]) == multiset(a) - multiset{a[0]}
  {
    hide Leq;
    assert a == [a[0]] + a[1..];
  }

  /** A multiset of strings has one sorted listing. */
  lemma {:induction false} SortedUnique(a: seq<string>, b: seq<string>)
    requires Sorted(a) && Sorted(b) && multiset(a) == multiset(b)
    ensures a == b
  {
    hide Leq, Sorted;
    assert |multiset(a)| == |a| && |multiset(b)| == |b|;
    if a != [] {
      assert a[0] in multiset(b) && b[0] in multiset(a);
      FirstIsLeast(a, b[0]);
      FirstIsLeast(b, a[0]);
      LeqTotal(a[0], b[0]);
      SortedTail(a);
      SortedTail(b);
      SortedUnique(a[1..], b[1..]);
      assert a == [a[0]] + a[1..] && b == [b[0]] + b[1..];
    }
  }

  // ---- encodings ----------------------------------------------------------

  /** The bytes of a character in UTF-8 (RFC 3629, section 3). */
  function Utf8(c: char): seq<int> {
    var n := c as int;
    if n < 0x80 then [n]
    else if n < 0x800 then [0xC0 + n / 0x40, 0x80 + n % 0x40]
    else if n < 0x1_0000 then [0xE0 + n / 0x1000, 0x80 + n / 0x40 % 0x40, 0x80 + n % 0x40]
    else [0xF0 + n / 0x4_0000, 0x80 + n / 0x1000 % 0x40, 0x80 + n / 0x40 % 0x40, 0x80 + n % 0x40]
  }

  /** The number that one to four bytes spell, each after the first giving six bits. */
  function Utf8Value(b: seq<int>): int {
    if |b| == 1 then b[0]
    else if |b| == 2 then (b[0] - 0xC0) * 0x40 + (b[1] - 0x80)
    else if |b| == 3 then ((b[0] - 0xE0) * 0x40 + (b[1] - 0x80)) * 0x40 + (b[2] - 0x80)
    else if |b| == 4 then (((b[0] - 0xF0) * 0x40 + (b[1] - 0x80)) * 0x40 + (b[2] - 0x80)) * 0x40 + (b[3] - 0x80)
    else 0
  }

  /** A character is read back from its bytes, whose number its first byte tells. */
  lemma Utf8ReadsBack(c: char)
    ensures var b := Utf8(c);
      && |b| == Utf8Len(c) && Utf8Value(b) == c as int
      && |b| == (if b[0] < 0x80 then 1 else if b[0] < 0xE0 then 2 else if b[0] < 0xF0 then 3 else 4)
      && (forall i :: 1 <= i < |b| ==> 0x80 <= b[i] < 0xC0)
  {
    var n := c as int;
    SixBits(n);
    SixBits(n / 0x40);
    SixBits(n / 0x40 / 0x40);
    assert n / 0x40 / 0x40 == n / 0x1000 && n / 0x1000 / 0x40 == n / 0x4_0000;
  }

  lemma SixBits(n: int)
    requires n >= 0
    ensures n == n / 0x40 * 0x40 + n % 0x40 && 0 <= n % 0x40 < 0x40
  {
  }

  function Utf8Text(s: string): seq<int> {
    if s == "" then [] else Utf8(s[0]) + Utf8Text(s[1..])
  }

  /** The byte length is the length of the text in UTF-8. */
  lemma {:induction false} ByteLengthIsUtf8(s: string)
    ensures ByteLength(s) == |Utf8Text(s)|
  {
    if s != "" {
      Utf8ReadsBack(s[0]);
      ByteLengthIsUtf8(s[1..]);
    }
  }

  /** The code units of a character in UTF-16: one, or a surrogate pair. */
  function Units(c: char): seq<int> {
    var n := c as int;
    if n < 0x1_0000 then [n] else [0xD800 + (n - 0x1_0000) / 0x400, 0xDC00 + (n - 0x1_0000) % 0x400]
  }

  function Utf16(s: string): seq<int> {
    if s == "" then [] else Units(s[0]) + Utf16(s[1..])
  }

  /** Comparison unit by unit, a prefix first. */
  predicate UnitsLeq(x: seq<int>, y: seq<int>) {
    x == [] || (y != [] && (x[0] < y[0] || (x[0] == y[0] && UnitsLeq(x[1..], y[1..]))))
  }

  lemma {:induction false} UnitsLeqSkips(p: seq<int>, x: seq<int>, y: seq<int>)
    ensures UnitsLeq(p + x, p + y) <==> UnitsLeq(x, y)
  {
    if p == [] {
      assert p + x == x && p + y == y;
    } else {
      assert (p + x)[1..] == p[1..] + x && (p + y)[1..] == p[1..] + y;
      UnitsLeqSkips(p[1..], x, y);
    }
  }

  lemma DifferentUnits(a: char, b: char, x: seq<int>, y: seq<int>)
    requires a != b
    ensures UnitsLeq(Units(a) + x, Units(b) + y) <==> Rank(a) < Rank(b)
  {
    var u, v := Units(a) + x, Units(b) + y;
    if |Units(a)| == 2 && |Units(b)| == 2 {
      assert u[1..][0] == Units(a)[1] && v[1..][0] == Units(b)[1];
    }
  }

  /** The default order of `sort` is that of the UTF-16 code units. */
  lemma {:induction false} LeqIsUtf16(a: string, b: string)
    ensures Leq(a, b) <==> UnitsLeq(Utf16(a), Utf16(b))
  {
    if a != "" && b != "" {
      if a[0] == b[0] {
        LeqIsUtf16(a[1..], b[1..]);
        UnitsLeqSkips(Units(a[0]), Utf16(a[1..]), Utf16(b[1..]));
      } else {
        RankInjective(a[0], b[0]);
        DifferentUnits(a[0], b[0], Utf16(a[1..]), Utf16(b[1..]));
      }
    }
  }

  /** A piece lies between separators or ends. */
  ghost predicate PieceAt(s: string, c: char, a: string, x: string, b: string) {
    && s == a + x + b
    && (a == "" || a[|a| - 1] == c) && (b == "" || b[0] == c)
  }

  lemma {:induction false} PieceFound(s: string, c: char, x: string) returns (a: string, b: string)
    requires x in Split(s, c)
    ensures PieceAt(s, c, a, x, b)
    decreases s
  {
    var parts := Split(s, c);
    if x == parts[0] {
      FirstPiece(s, c);
      a, b := "", s[|x|..];
    } else {
      var k :| 1 <= k < |parts| && parts[k] == x;
      var rest := Split(s[1..], c);
      if s[0] == c {
        a, b := PieceFound(s[1..], c, x);
        a := [c] + a;
      } else {
        assert parts[k] == rest[k];
        a, b := LaterPieceFound(s[1..], c, k);
        a := [s[0]] + a;
      }
      assert s == [s[0]] + s[1..];
    }
  }

  lemma {:induction false} FirstPiece(s: string, c: char)
    ensures var x := Split(s, c)[0]; |x| <= |s| && s[..|x|] == x && (|x| == |s| || s[|x|] == c)
  {
    if s != "" && s[0] != c {
      FirstPiece(s[1..], c);
      var rest := Split(s[1..], c)[0];
      assert Split(s, c)[0] == [s[0]] + rest;
      assert s[..|rest| + 1] == [s[0]] + s[1..][..|rest|];
    }
  }

  lemma {:induction false} LaterPieceFound(s: string, c: char, k: nat) returns (a: string, b: string)
    requires 1 <= k < |Split(s, c)|
    ensures a != "" && PieceAt(s, c, a, Split(s, c)[k], b)
  {
    var rest := Split(s[1..], c);
    assert s == [s[0]] + s[1..];
    if s[0] == c {
      if k == 1 {
        FirstPiece(s[1..], c);
        a, b := [c], s[1..][|rest[0]|..];
      } else {
        a, b := LaterPieceFound(s[1..], c, k - 1);
        a := [c] + a;
      }
    } else {
      a, b := LaterPieceFound(s[1..], c, k);
      a := [s[0]] + a;
    }
  }

  lemma PieceSplits(s: string, c: char, a: string, x: string, b: string)
    requires PieceAt(s, c, a, x, b) && c !in x
    ensures x in Split(s, c)
  {
    SplitNone(x, c);
    if a == "" {
      assert s == x + b;
      TailSplits(x, c, b);
    } else {
      var before := a[..|a| - 1];
      assert a == before + [c] && s == before + [c] + (x + b);
      SplitAtSeparator(before, c, x + b);
      TailSplits(x, c, b);
    }
  }

  lemma TailSplits(x: string, c: char, b: string)
    requires c !in x && (b == "" || b[0] == c)
    ensures x in Split(x + b, c)
  {
    SplitNone(x, c);
    if b == "" {
      assert x + b == x;
    } else {
      assert x + b == x + [c] + b[1..];
      SplitAtSeparator(x, c, b[1..]);
    }
  }
}
