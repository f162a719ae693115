/** The small string helpers of the archive kit's utility library
    (dak/lib/utils.py): argument splitting, pool paths, English lists,
    message indentation, digit tests, architecture ordering, tab-joined
    rows, human-readable sizes, relative symlinks and the search for a
    free file name. */
module StringUtils {
  import opened Results
  import opened Text

  // ---------------------------------------------------------------------
  // split_args

  /** The one complaint `split_args` raises (through `fubar`, which ends
      the program). */
  datatype SplitError = TrailingComma

  /** `split_args(s, dwim)`: whitespace-separated without a comma,
      comma-separated with one; a trailing comma is fatal when `dwim` is
      set. */
  function SplitArgs(s: string, dwim: bool): (r: Result<seq<string>, SplitError>)
    ensures NoChar(s, ',') ==> r == Success(Words(s))
    ensures r.Failure? <==> !NoChar(s, ',') && dwim && s[|s| - 1] == ','
    ensures r.Success? && !NoChar(s, ',') ==>
      |r.value| >= 2 && Join(",", r.value) == s &&
      forall i :: 0 <= i < |r.value| ==> NoChar(r.value[i], ',')
  {
    if NoChar(s, ',') then Success(Words(s))
    else if dwim && s[|s| - 1] == ',' then Failure(TrailingComma)
    else
      SplitOnSeveral(s, ',');
      SplitOnNoChar(s, ',');
      JoinSplitOn(s, ',');
      Success(SplitOn(s, ','))
  }

  // ---------------------------------------------------------------------
  // poolify

  /** The component part of a pool path: `component/` lower-cased, with the
      `non-US/` spelling restored; empty for an empty component. */
  function PoolComponent(component: string): string {
    ReplaceAll(Lower(if component != "" then component + "/" else ""), "non-us/", "non-US/")
  }

  /** The hash directory: the first four characters of a `lib` source,
      otherwise the first one. */
  function PoolHash(source: string): (h: string)
    ensures h <= source
    ensures |h| == if |source| < HashLength(source) then |source| else HashLength(source)
  {
    Take(source, HashLength(source))
  }

  function HashLength(source: string): nat {
    if Take(source, 3) == "lib" then 4 else 1
  }

  /** `poolify(source, component)`: component, hash directory and source,
      each closed by a slash. */
  function Poolify(source: string, component: string): (r: string)
    ensures PoolComponent(component) <= r
    ensures |r| == |PoolComponent(component)| + |PoolHash(source)| + |source| + 2
    ensures r[|PoolComponent(component)|..|PoolComponent(component)| + |PoolHash(source)|] == PoolHash(source)
    ensures r[|r| - |source| - 2] == '/' && r[|r| - |source| - 1..] == source + "/"
  {
    var pc := PoolComponent(component);
    var h := PoolHash(source);
    PoolifyLayout(pc, h, source);
    pc + h + "/" + source + "/"
  }

  lemma {:induction false} PoolifyLayout(pc: string, h: string, source: string)
    ensures var r := pc + h + "/" + source + "/";
      pc <= r && |r| == |pc| + |h| + |source| + 2 && r[|pc|..|pc| + |h|] == h &&
      r[|r| - |source| - 2] == '/' && r[|r| - |source| - 1..] == source + "/"
  {
  }

  /** Read back along its slashes, a pool path ends with the source's own
      directory. */
  lemma {:induction false} PoolifySource(source: string, component: string)
    requires NoChar(source, '/')
    ensures var parts := SplitOn(Poolify(source, component), '/');
      |parts| >= 3 && parts[|parts| - 2] == source && parts[|parts| - 1] == ""
  {
    var pc := PoolComponent(component);
    var h := PoolHash(source);
    DirectoryLast(pc + h, source);
    assert Poolify(source, component) == pc + h + "/" + source + "/";
  }

  lemma {:induction false} DirectoryLast(head: string, name: string)
    requires NoChar(name, '/')
    ensures var parts := SplitOn(head + "/" + name + "/", '/');
      |parts| >= 3 && parts[|parts| - 2] == name && parts[|parts| - 1] == ""
  {
    assert head + "/" + name + "/" == head + ("/" + (name + ("/" + "")));
    SplitOnPrefix(name, '/', "");
    assert SplitOn(name + ("/" + ""), '/') == [name, ""];
    SplitOnSep(head, '/', name + ("/" + ""));
  }

  // ---------------------------------------------------------------------
  // join_with_commas_and

  /** `join_with_commas_and(list)`: an English enumeration. */
  function JoinWithCommasAnd(items: seq<string>): (r: string)
    ensures |items| == 0 ==> r == "nothing"
    ensures |items| == 1 ==> r == items[0]
    ensures |items| == 2 ==> r == items[0] + " and " + items[1]
  {
    if |items| == 0 then "nothing"
    else if |items| == 1 then items[0]
    else Join(", ", items[..|items| - 1]) + " and " + items[|items| - 1]
  }

  /** Every item after the first is announced by its separator:
      `", "` before the middle ones, `" and "` before the last. */
  lemma {:induction false} JoinWithCommasAndSplit(items: seq<string>)
    requires |items| >= 3
    ensures JoinWithCommasAnd(items) ==
      items[0] + ", " + JoinWithCommasAnd(items[1..])
  {
    var n := |items|;
    assert items[..n - 1][1..] == items[1..][..n - 2];
    assert items[1..][n - 2] == items[n - 1];
  }

  /** The pieces that splitting at the commas gives for the items after the
      first: each keeps the blank of its `", "`. */
  function Spaced(xs: seq<string>): seq<string> {
    seq(|xs|, i requires 0 <= i < |xs| => " " + xs[i])
  }

  /** For items without a comma the enumeration reads back: it ends in
      `" and "` and the last item, and what comes before splits at the
      commas into the first item and the blank-prefixed middle ones. */
  lemma {:induction false} JoinWithCommasAndReadsBack(items: seq<string>)
    requires |items| >= 2
    requires forall i :: 0 <= i < |items| ==> NoChar(items[i], ',')
    ensures var r := JoinWithCommasAnd(items);
      var last := items[|items| - 1];
      |r| >= |last| + 5 &&
      r[|r| - |last| - 5..] == " and " + last &&
      SplitOn(r[..|r| - |last| - 5], ',') == [items[0]] + Spaced(items[1..|items| - 1])
  {
    var n := |items|;
    var front := items[..n - 1];
    JoinCommaSpace(front);
    assert front[1..] == items[1..n - 1];
    var parts := [front[0]] + Spaced(front[1..]);
    forall i | 0 <= i < |parts|
      ensures NoChar(parts[i], ',')
    {
      if i > 0 {
        assert parts[i] == " " + items[i];
      }
    }
    SplitOnJoin(parts, ',');
    var r := JoinWithCommasAnd(items);
    if n > 2 {
      JoinWithCommasAndSplit(items);
    }
    assert r == Join(", ", front) + (" and " + items[n - 1]);
  }

  /** `", ".join(ys)` is `",".join` of the same items with a blank put in
      front of every item but the first. */
  lemma {:induction false} JoinCommaSpace(ys: seq<string>)
    requires |ys| >= 1
    ensures Join(", ", ys) == Join([','], [ys[0]] + Spaced(ys[1..]))
    decreases |ys|
  {
    if |ys| >= 2 {
      JoinCommaSpace(ys[1..]);
      var rest := Spaced(ys[2..]);
      assert ys[1..][1..] == ys[2..];
      assert Spaced(ys[1..]) == [" " + ys[1]] + rest;
      assert ([ys[0]] + Spaced(ys[1..]))[1..] == Spaced(ys[1..]);
      assert ([ys[1]] + rest)[1..] == rest;
      assert ([" " + ys[1]] + rest)[1..] == rest;
    }
  }

  // ---------------------------------------------------------------------
  // prefix_multi_line_string

  /** The lines of the output, in order: each input line stripped and
      prefixed, blank ones only when `includeBlank` is set. */
  function Prefixed(lines: seq<string>, prefix: string, includeBlank: bool): seq<string>
    decreases |lines|
  {
    if lines == [] then []
    else
      var rest := Prefixed(lines[..|lines| - 1], prefix, includeBlank);
      var l := Strip(lines[|lines| - 1]);
      if l != "" || includeBlank then rest + [prefix + l] else rest
  }

  /** The pieces, each closed by a newline. */
  function Terminated(ps: seq<string>): string
    decreases |ps|
  {
    if ps == [] then "" else Terminated(ps[..|ps| - 1]) + ps[|ps| - 1] + "\n"
  }

  lemma {:induction false} TerminatedJoin(ps: seq<string>)
    requires ps != []
    ensures Terminated(ps) == Join("\n", ps) + "\n"
    decreases |ps|
  {
    if |ps| > 1 {
      var init := ps[..|ps| - 1];
      TerminatedJoin(init);
      JoinAppend("\n", init, ps[|ps| - 1]);
      assert init + [ps[|ps| - 1]] == ps;
    }
  }

  /** `prefix_multi_line_string(str, prefix, include_blank_lines)`. */
  method PrefixMultiLineString(str: string, prefix: string, includeBlank: bool) returns (out: string)
    ensures out == Join("\n", Prefixed(SplitOn(str, '\n'), prefix, includeBlank))
  {
    var lines := SplitOn(str, '\n');
    out := "";
    var i := 0;
    while i < |lines|
      invariant 0 <= i <= |lines|
      invariant out == Terminated(Prefixed(lines[..i], prefix, includeBlank))
    {
      var line := Strip(lines[i]);
      assert lines[..i + 1][..i] == lines[..i];
      if line != "" || includeBlank {
        out := out + prefix + line + "\n";
      }
      i := i + 1;
    }
    assert lines[..i] == lines;
    var ps := Prefixed(lines, prefix, includeBlank);
    if out != "" {
      TerminatedJoin(ps);
      out := out[..|out| - 1];
    }
  }

  lemma {:induction false} PrefixedNoNewline(lines: seq<string>, prefix: string, includeBlank: bool)
    requires NoChar(prefix, '\n')
    requires forall i :: 0 <= i < |lines| ==> NoChar(lines[i], '\n')
    ensures forall i :: 0 <= i < |Prefixed(lines, prefix, includeBlank)| ==>
      NoChar(Prefixed(lines, prefix, includeBlank)[i], '\n') &&
      StartsWith(Prefixed(lines, prefix, includeBlank)[i], prefix)
    decreases |lines|
  {
    if lines != [] {
      var init := lines[..|lines| - 1];
      forall i | 0 <= i < |init|
        ensures NoChar(init[i], '\n')
      {
        assert init[i] == lines[i];
      }
      PrefixedNoNewline(init, prefix, includeBlank);
      var l := lines[|lines| - 1];
      StripNoChar(l, '\n');
      NoCharAppend(prefix, Strip(l), '\n');
      var rest := Prefixed(lines[..|lines| - 1], prefix, includeBlank);
      var ps := Prefixed(lines, prefix, includeBlank);
      if Strip(l) != "" || includeBlank {
        assert ps == rest + [prefix + Strip(l)];
        forall i | 0 <= i < |ps|
          ensures NoChar(ps[i], '\n') && StartsWith(ps[i], prefix)
        {
          if i < |rest| {
            assert ps[i] == rest[i];
          }
        }
      }
    }
  }

  /** Reading the result back line by line gives one line per kept input
      line, each starting with the prefix. */
  lemma {:induction false} PrefixedLines(str: string, prefix: string, includeBlank: bool)
    requires NoChar(prefix, '\n')
    requires Prefixed(SplitOn(str, '\n'), prefix, includeBlank) != []
    ensures var ps := Prefixed(SplitOn(str, '\n'), prefix, includeBlank);
      SplitOn(Join("\n", ps), '\n') == ps &&
      forall i :: 0 <= i < |ps| ==> StartsWith(ps[i], prefix)
  {
    SplitOnNoChar(str, '\n');
    PrefixedNoNewline(SplitOn(str, '\n'), prefix, includeBlank);
    SplitOnJoin(Prefixed(SplitOn(str, '\n'), prefix, includeBlank), '\n');
  }

  /** With blank lines included, there is one output line per input line. */
  lemma {:induction false} PrefixedKeepsAll(lines: seq<string>, prefix: string)
    ensures |Prefixed(lines, prefix, true)| == |lines|
    ensures forall i :: 0 <= i < |lines| ==> Prefixed(lines, prefix, true)[i] == prefix + Strip(lines[i])
    decreases |lines|
  {
    if lines != [] {
      PrefixedKeepsAll(lines[..|lines| - 1], prefix);
    }
  }

  // ---------------------------------------------------------------------
  // str_isnum

  /** `str_isnum(s)`: every character is a decimal digit (true for ""). */
  function StrIsNum(s: string): (r: bool)
    ensures r <==> AllDigits(s)
    decreases |s|
  {
    if s == [] then true
    else if !IsDigit(s[0]) then false
    else StrIsNum(s[1..])
  }

  // ---------------------------------------------------------------------
  // arch_compare_sw

  /** `arch_compare_sw(a, b)`: byte-wise order, except that "source" comes
      before every other architecture. */
  function ArchCompareSw(a: string, b: string): (r: int)
    ensures a == "source" && b != "source" ==> r == -1
    ensures b == "source" && a != "source" ==> r == 1
    ensures a != "source" && b != "source" ==> r == Cmp(a, b)
  {
    if a == "source" && b == "source" then 0
    else if a == "source" then -1
    else if b == "source" then 1
    else Cmp(a, b)
  }

  /** The comparison is antisymmetric and equates only equal names. */
  lemma {:induction false} ArchCompareAntisymmetric(a: string, b: string)
    ensures ArchCompareSw(a, b) == -ArchCompareSw(b, a)
    ensures ArchCompareSw(a, b) == 0 <==> a == b
  {
    CmpAntisymmetric(a, b);
  }

  /** The comparison is transitive, so with antisymmetry it orders all
      architecture names totally. */
  lemma {:induction false} ArchCompareTransitive(a: string, b: string, c: string)
    requires ArchCompareSw(a, b) <= 0 && ArchCompareSw(b, c) <= 0
    ensures ArchCompareSw(a, c) <= 0
  {
    if a != "source" && b != "source" && c != "source" {
      CmpTransitive(a, b, c);
    }
  }

  // ---------------------------------------------------------------------
  // result_join

  /** The fields of `result_join`, with a missing (None) one written as "". */
  function Filled(original: seq<Option<string>>): (fs: seq<string>)
    ensures |fs| == |original|
    ensures forall i :: 0 <= i < |original| ==>
      fs[i] == if original[i].Some? then original[i].value else ""
    decreases |original|
  {
    if original == [] then []
    else [if original[0].Some? then original[0].value else ""] + Filled(original[1..])
  }

  /** `result_join(original, sep)`. */
  function ResultJoin(original: seq<Option<string>>, sep: string): (r: string)
    ensures |original| == 0 ==> r == ""
    ensures |original| == 1 ==> r == Filled(original)[0]
  {
    Join(sep, Filled(original))
  }

  /** With a one-character separator that no field contains, splitting the
      joined row gives the fields back. */
  lemma {:induction false} ResultJoinSplit(original: seq<Option<string>>, c: char)
    requires |original| >= 1
    requires forall i :: 0 <= i < |original| && original[i].Some? ==> NoChar(original[i].value, c)
    ensures SplitOn(ResultJoin(original, [c]), c) == Filled(original)
  {
    SplitOnJoin(Filled(original), c);
  }

  // ---------------------------------------------------------------------
  // size_type

  /** The number and unit `size_type` shows: bytes up to 10240, then
      kilobytes up to 10240 of them, then megabytes; divisions truncate. */
  function SizeScale(c: int): (r: (int, string))
    ensures r.1 == " B" <==> c <= 10240
    ensures r.1 == " KB" <==> 10240 < c < 10241 * 1024
    ensures r.1 == " MB" <==> c >= 10241 * 1024
    ensures r.0 * UnitBytes(r.1) <= c < (r.0 + 1) * UnitBytes(r.1)
  {
    if c <= 10240 then (c, " B")
    else if c / 1024 <= 10240 then (c / 1024, " KB")
    else
      assert c / 1024 / 1024 == c / 1048576;
      (c / 1024 / 1024, " MB")
  }

  function UnitBytes(unit: string): int {
    if unit == " B" then 1 else if unit == " KB" then 1024 else 1048576
  }

  /** `size_type(c)`: the number in decimal, then the unit. */
  function SizeType(c: int): string {
    IntToString(SizeScale(c).0) + SizeScale(c).1
  }

  /** The shown text is two words: a number that reads back with `int()`
      and a unit name, B up to 10240 bytes, KB up to 10240 kilobytes, MB
      beyond; the number counts the whole units in `c`. */
  lemma {:induction false} SizeTypeReadsBack(c: int)
    ensures var w := Words(SizeType(c));
      |w| == 2 && ParseInt(w[0]).Some? &&
      (w[1] == "B" <==> c <= 10240) &&
      (w[1] == "KB" <==> 10240 < c < 10241 * 1024) &&
      (w[1] == "MB" <==> c >= 10241 * 1024) &&
      ParseInt(w[0]).value * UnitBytes(" " + w[1]) <= c &&
      c < (ParseInt(w[0]).value + 1) * UnitBytes(" " + w[1])
  {
    var u := SizeScale(c).1;
    SizeTypeWords(c);
    ParseIntToString(SizeScale(c).0);
    assert " " + u[1..] == u;
  }

  /** The two words of the shown text. */
  lemma {:induction false} SizeTypeWords(c: int)
    ensures Words(SizeType(c)) == [IntToString(SizeScale(c).0), SizeScale(c).1[1..]]
  {
    var n := IntToString(SizeScale(c).0);
    var u := SizeScale(c).1;
    assert u == " " + u[1..];
    assert IsToken(u[1..]);
    WordsToken(u[1..], []);
    assert u[1..] + [] == u[1..];
    WordsSkipSpace(" ", u[1..]);
    assert n + u == n + (" " + u[1..]);
    WordsToken(n, " " + u[1..]);
  }

  // ---------------------------------------------------------------------
  // clean_symlink

  /** `os.path.dirname(p)`: everything up to the last slash, with trailing
      slashes removed unless the head is slashes only. */
  function DirName(p: string): string {
    var head := p[..LastSlashEnd(p)];
    if head != "" && !AllChar(head, '/') then RStripChar(head, '/') else head
  }

  /** One past the position of the last slash; 0 without one. */
  function LastSlashEnd(p: string): (i: nat)
    ensures i <= |p|
    ensures i > 0 ==> p[i - 1] == '/'
    ensures NoChar(p[i..], '/')
    decreases |p|
  {
    if p == [] then 0
    else if p[|p| - 1] == '/' then |p|
    else
      var i := LastSlashEnd(p[..|p| - 1]);
      assert p[i..] == p[..|p| - 1][i..] + [p[|p| - 1]];
      i
  }

  predicate AllChar(s: string, c: char) {
    forall i :: 0 <= i < |s| ==> s[i] == c
  }

  function RStripChar(s: string, c: char): (r: string)
    ensures r <= s
    ensures r == [] || r[|r| - 1] != c
    decreases |s|
  {
    if s != [] && s[|s| - 1] == c then RStripChar(s[..|s| - 1], c) else s
  }

  /** How many levels `clean_symlink` climbs: one per slash-separated piece
      of the link's directory under the root. */
  function LinkDepth(dest: string, root: string): (n: nat)
    ensures n >= 1
  {
    |SplitOn(DirName(ReplaceFirst(dest, root, "")), '/')|
  }

  /** `clean_symlink(src, dest, root)`: the target with `root` taken off,
      reached by climbing out of the link's directory. */
  function CleanSymlink(src: string, dest: string, root: string): (r: string)
    ensures |r| == 3 * LinkDepth(dest, root) + |ReplaceFirst(src, root, "")|
    ensures r[3 * LinkDepth(dest, root)..] == ReplaceFirst(src, root, "")
    ensures forall k :: 0 <= k < LinkDepth(dest, root) ==> r[3 * k..3 * k + 3] == "../"
  {
    RepeatUp(LinkDepth(dest, root));
    Repeat("../", LinkDepth(dest, root)) + ReplaceFirst(src, root, "")
  }

  /** A link `root/d1/.../dk/name` (k >= 1, no piece empty) climbs exactly
      k levels, so the relative target it gets leads back to `root`
      before naming the target's path under it. */
  lemma {:induction false} CleanSymlinkRelative(src: string, dest: string, root: string,
                                                ds: seq<string>, name: string, t: string)
    requires |ds| >= 1
    requires forall i :: 0 <= i < |ds| ==> ds[i] != "" && NoChar(ds[i], '/')
    requires NoChar(name, '/')
    requires dest == root + Join("/", ds) + "/" + name
    requires src == root + t
    ensures LinkDepth(dest, root) == |ds|
    ensures CleanSymlink(src, dest, root) == Repeat("../", |ds|) + t
  {
    LinkDepthOfJoin(dest, root, ds, name);
    ReplaceRoot(root, t);
  }

  lemma {:induction false} LinkDepthOfJoin(dest: string, root: string, ds: seq<string>, name: string)
    requires |ds| >= 1
    requires forall i :: 0 <= i < |ds| ==> ds[i] != "" && NoChar(ds[i], '/')
    requires NoChar(name, '/')
    requires dest == root + Join("/", ds) + "/" + name
    ensures LinkDepth(dest, root) == |ds|
  {
    var p := Join("/", ds) + "/" + name;
    ReplaceRoot(root, p);
    assert dest == root + p;
    DirNameOfJoin(ds, name);
    SplitOnJoin(ds, '/');
    assert ['/'] == "/";
  }

  /** The directory of `d1/.../dk/name` is `d1/.../dk`. */
  lemma {:induction false} DirNameOfJoin(ds: seq<string>, name: string)
    requires |ds| >= 1
    requires forall i :: 0 <= i < |ds| ==> ds[i] != "" && NoChar(ds[i], '/')
    requires NoChar(name, '/')
    ensures DirName(Join("/", ds) + "/" + name) == Join("/", ds)
  {
    var d := Join("/", ds);
    var last := ds[|ds| - 1];
    JoinEndsWithLast("/", ds);
    assert d[|d| - 1] == last[|last| - 1];
    LastSlashBefore(d + "/", name);
    var p := d + "/" + name;
    assert p[..|d| + 1] == d + "/";
    assert (d + "/")[|d| - 1] != '/';
    assert (d + "/")[..|d|] == d;
    assert RStripChar(d + "/", '/') == d;
  }

  /** A link directly in `root` has the empty directory, which still
      counts as one piece: its target climbs one level above `root`. */
  lemma {:induction false} CleanSymlinkAtRoot(src: string, dest: string, root: string,
                                              name: string, t: string)
    requires NoChar(name, '/')
    requires dest == root + name
    requires src == root + t
    ensures LinkDepth(dest, root) == 1
    ensures CleanSymlink(src, dest, root) == "../" + t
  {
    ReplaceRoot(root, name);
    ReplaceRoot(root, t);
    assert LastSlashEnd(name) == 0;
    assert DirName(name) == "";
    assert SplitOn("", '/') == [""];
    assert Repeat("../", 1) == "../";
  }

  /** Taking the root off a path under it leaves the rest. */
  lemma {:induction false} ReplaceRoot(root: string, x: string)
    ensures ReplaceFirst(root + x, root, "") == x
  {
    assert root <= root + x;
    assert (root + x)[|root|..] == x;
  }

  /** A join ends with its last part. */
  lemma {:induction false} JoinEndsWithLast(sep: string, parts: seq<string>)
    requires |parts| >= 1
    ensures var j := Join(sep, parts); var last := parts[|parts| - 1];
      |j| >= |last| && j[|j| - |last|..] == last
  {
    var n := |parts|;
    if n > 1 {
      assert parts == parts[..n - 1] + [parts[n - 1]];
      JoinAppend(sep, parts[..n - 1], parts[n - 1]);
    }
  }

  /** The last slash of `h + name` is the one that ends `h`. */
  lemma {:induction false} LastSlashBefore(h: string, name: string)
    requires h != [] && h[|h| - 1] == '/'
    requires NoChar(name, '/')
    ensures LastSlashEnd(h + name) == |h|
    decreases |name|
  {
    if name == [] {
      assert h + name == h;
    } else {
      var m := name[..|name| - 1];
      assert (h + name)[..|h + name| - 1] == h + m;
      LastSlashBefore(h, m);
    }
  }

  lemma {:induction false} RepeatUp(n: nat)
    ensures |Repeat("../", n)| == 3 * n
    ensures forall k :: 0 <= k < n ==> Repeat("../", n)[3 * k..3 * k + 3] == "../"
  {
    if n > 0 {
      RepeatUp(n - 1);
      var r := Repeat("../", n);
      assert r == "../" + Repeat("../", n - 1);
      forall k | 0 <= k < n
        ensures r[3 * k..3 * k + 3] == "../"
      {
        if k > 0 {
          assert r[3 * k..3 * k + 3] == Repeat("../", n - 1)[3 * (k - 1)..3 * (k - 1) + 3];
        }
      }
    }
  }

  // ---------------------------------------------------------------------
  // find_next_free

  /** What `find_next_free` raises when it gives up. */
  datatype FreeError = TriedTooHard

  /** The k-th alternative name, `dest + "." + repr(k)`. */
  function Candidate(dest: string, k: nat): string {
    dest + "." + NatToString(k)
  }

  /** The name tried after `extra` alternatives have been generated. */
  function Tried(dest: string, extra: nat): string {
    if extra == 0 then dest else Candidate(dest, extra - 1)
  }

  /** The loop of `find_next_free` from the state where `extra`
      alternatives have been generated. */
  function Probe(dest: string, existing: set<string>, tooMany: int, extra: nat): Result<string, FreeError>
    decreases tooMany - extra
  {
    if Tried(dest, extra) in existing && extra < tooMany then Probe(dest, existing, tooMany, extra + 1)
    else if extra >= tooMany then Failure(TriedTooHard)
    else Success(Tried(dest, extra))
  }

  /** `find_next_free(dest, too_many)` against the set of existing paths. */
  method FindNextFree(dest: string, existing: set<string>, tooMany: int) returns (r: Result<string, FreeError>)
    ensures r == Probe(dest, existing, tooMany, 0)
  {
    var extra: nat := 0;
    var cur := dest;
    while cur in existing && extra < tooMany
      invariant cur == Tried(dest, extra)
      invariant Probe(dest, existing, tooMany, extra) == Probe(dest, existing, tooMany, 0)
      decreases tooMany - extra
    {
      cur := Candidate(dest, extra);
      extra := extra + 1;
    }
    if extra >= tooMany {
      return Failure(TriedTooHard);
    }
    return Success(cur);
  }

  /** A returned name is free, and every name tried before it exists. */
  lemma {:induction false} ProbeFinds(dest: string, existing: set<string>, tooMany: int, extra: nat)
    requires Probe(dest, existing, tooMany, extra).Success?
    ensures var d := Probe(dest, existing, tooMany, extra).value;
      d !in existing &&
      exists k :: extra <= k < tooMany && d == Tried(dest, k) &&
        forall j :: extra <= j < k ==> Tried(dest, j) in existing
    decreases tooMany - extra
  {
    var d := Probe(dest, existing, tooMany, extra).value;
    if Tried(dest, extra) in existing && extra < tooMany {
      ProbeFinds(dest, existing, tooMany, extra + 1);
      var k :| extra + 1 <= k < tooMany && d == Tried(dest, k) &&
        forall j :: extra + 1 <= j < k ==> Tried(dest, j) in existing;
      assert forall j :: extra <= j < k ==> Tried(dest, j) in existing;
    } else {
      assert extra < tooMany && d == Tried(dest, extra);
    }
  }

  /** It gives up exactly when the original name and the first
      `tooMany - 1` alternatives all exist (always when tooMany <= 0): the
      last alternative it generates is never offered. */
  lemma {:induction false} ProbeGivesUp(dest: string, existing: set<string>, tooMany: int, extra: nat)
    ensures Probe(dest, existing, tooMany, extra).Failure? <==>
      extra >= tooMany || forall j :: extra <= j < tooMany ==> Tried(dest, j) in existing
    decreases tooMany - extra
  {
    if extra < tooMany {
      ProbeGivesUp(dest, existing, tooMany, extra + 1);
      if Tried(dest, extra) !in existing {
        assert !(forall j :: extra <= j < tooMany ==> Tried(dest, j) in existing);
      }
    }
  }
}
