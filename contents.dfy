/** The Contents-file writer (dak/contents.py): the cached header, the
    layout of one `path<TABs>packages` row, the text written for a result
    set, and the choice of suites and architectures. The database, the
    configuration tree and gzip are replaced by the values they yield. */
module ContentsFiles {
  import opened Results
  import opened Text
  import opened StringUtils

  // ---------------------------------------------------------------------
  // Row layout

  /** `_goal_column`: the column the package list aims for. */
  const GoalColumn := 54

  /** `max(1, int(math.ceil((54 - len(path) - 1) / 8)))`. Both operands are
      integers, so the division floors before `ceil` sees it; the count is
      the largest number of 8-wide tabs that keeps the path and the tabs
      within column 53, and never less than one. */
  function NumTabs(len: nat): (n: nat)
    ensures n >= 1
    ensures n == 1 || len + 8 * n <= GoalColumn - 1
    ensures len + 8 * (n + 1) > GoalColumn - 1
  {
    var q := (GoalColumn - len - 1) / 8;
    if q < 1 then 1 else q
  }

  /** A single tab is used exactly from path length 38 on. */
  lemma NumTabsOne(len: nat)
    ensures NumTabs(len) == 1 <==> len >= 38
  {
  }

  /** A longer path never gets more tabs. */
  lemma NumTabsMonotone(a: nat, b: nat)
    requires a <= b
    ensures NumTabs(b) <= NumTabs(a)
  {
  }

  function Tabs(n: nat): (t: string)
    ensures |t| == n && forall i :: 0 <= i < n ==> t[i] == '\t'
  {
    if n == 0 then "" else "\t" + Tabs(n - 1)
  }

  /** A row of the result set: `contents[0]` (the file name) and
      `contents[-1]` (the comma-separated section/package list). */
  datatype Row = Row(path: string, last: string)

  /** The line written for one row. */
  function RowText(r: Row): string {
    r.path + Tabs(NumTabs(|r.path|)) + r.last + "\n"
  }

  /** Everything written for the rows, in order. */
  function Body(rows: seq<Row>): string
    decreases |rows|
  {
    if rows == [] then "" else RowText(rows[0]) + Body(rows[1..])
  }

  lemma {:induction false} BodySnoc(rows: seq<Row>, r: Row)
    ensures Body(rows + [r]) == Body(rows) + RowText(r)
    decreases |rows|
  {
    if rows == [] {
      assert [r][1..] == [];
    } else {
      assert (rows + [r])[1..] == rows[1..] + [r];
      BodySnoc(rows[1..], r);
    }
  }

  // ---------------------------------------------------------------------
  // Reading a Contents file back

  /** A row survives the layout when neither field holds a tab or a
      newline. */
  predicate Plain(r: Row) {
    NoChar(r.path, '\t') && NoChar(r.path, '\n') && NoChar(r.last, '\t') && NoChar(r.last, '\n')
  }

  function DropTabs(s: string): string
    decreases |s|
  {
    if s != [] && s[0] == '\t' then DropTabs(s[1..]) else s
  }

  /** Reading one line back: the text before the first tab, and what
      follows the run of tabs, without the newline. */
  function DecodeLine(l: string): Row {
    var body := if l != [] && l[|l| - 1] == '\n' then l[..|l| - 1] else l;
    var i := FirstOf(body, '\t');
    Row(body[..i], DropTabs(body[i..]))
  }

  lemma {:induction false} DropTabsOf(n: nat, s: string)
    requires s == [] || s[0] != '\t'
    ensures DropTabs(Tabs(n) + s) == s
    decreases n
  {
    if n > 0 {
      assert (Tabs(n) + s)[1..] == Tabs(n - 1) + s;
      DropTabsOf(n - 1, s);
    } else {
      assert Tabs(n) + s == s;
    }
  }

  /** A row's line is a line, and reads back as that row. */
  lemma RowRoundTrip(r: Row)
    requires Plain(r)
    ensures IsLine(RowText(r))
    ensures DecodeLine(RowText(r)) == r
  {
    var n := NumTabs(|r.path|);
    var t := Tabs(n);
    var l := RowText(r);
    var body := r.path + t + r.last;
    assert l == body + "\n";
    assert l[..|l| - 1] == body;
    NoCharAppend(r.path, t, '\n');
    NoCharAppend(r.path + t, r.last, '\n');
    assert t == "\t" + Tabs(n - 1);
    assert body == r.path + ("\t" + (Tabs(n - 1) + r.last));
    FirstOfPrefix(r.path, '\t', Tabs(n - 1) + r.last);
    assert body[..|r.path|] == r.path;
    assert body[|r.path|..] == Tabs(n) + r.last;
    DropTabsOf(n, r.last);
  }

  /** Reading back the rows' text gives one line per row, and each line
      decodes to its row. */
  lemma {:induction false} BodyRoundTrip(rows: seq<Row>)
    requires forall i :: 0 <= i < |rows| ==> Plain(rows[i])
    ensures |Lines(Body(rows))| == |rows|
    ensures forall i :: 0 <= i < |rows| ==> DecodeLine(Lines(Body(rows))[i]) == rows[i]
    decreases |rows|
  {
    if rows != [] {
      BodyRoundTrip(rows[1..]);
      RowRoundTrip(rows[0]);
      LinesCons(RowText(rows[0]), Body(rows[1..]));
      var ls := Lines(Body(rows));
      assert ls == [RowText(rows[0])] + Lines(Body(rows[1..]));
      forall i | 0 < i < |rows|
        ensures DecodeLine(ls[i]) == rows[i]
      {
        assert ls[i] == Lines(Body(rows[1..]))[i - 1];
        assert rows[1..][i - 1] == rows[i];
      }
    }
  }

  // ---------------------------------------------------------------------
  // The header cache

  /** `self.header`: `None`, `False`, or the text read from the template
      (possibly empty). */
  datatype Cached = Unset | Absent | Loaded(text: string)

  /** Python truth of the cached header. */
  predicate Truthy(c: Cached) {
    c.Loaded? && c.text != ""
  }

  /** What `_write_content_file` writes before the rows. */
  function HeaderText(c: Cached): (t: string)
    ensures t != "" <==> Truthy(c)
  {
    if Truthy(c) then c.text else ""
  }

  /** The cache after `_getHeader`, with the handler's log line working as
      intended: `name` is the `Contents::Header` setting, `read` what
      opening and reading the template yields (`None` when that raises). */
  function Resolve(h: Cached, name: Option<string>, read: Option<string>): (r: Cached)
    ensures r != Unset
    ensures h != Unset ==> r == h
    ensures h == Unset && name.None? ==> r == Absent
    ensures h == Unset && name.Some? ==> r == if read.Some? then Loaded(read.value) else Absent
  {
    if h != Unset then h
    else if name.None? then Absent
    else if read.None? then Absent
    else Loaded(read.value)
  }

  /** Once resolved, later calls return the cached value whatever the
      configuration and the template then hold. */
  lemma ResolveCached(h: Cached, n1: Option<string>, r1: Option<string>, n2: Option<string>, r2: Option<string>)
    ensures Resolve(Resolve(h, n1, r1), n2, r2) == Resolve(h, n1, r1)
  {
  }

  /** The error raised inside the handler: its message names `traceback`,
      which the module never imports (and its `%d` would not take the
      header name, a string, either). */
  datatype Raised = HandlerNameError

  /** `_getHeader` as written: a failed read reaches the log call, whose
      formatting raises, so `self.header` is left `None`. */
  function ResolveAsWritten(h: Cached, name: Option<string>, read: Option<string>): Result<Cached, Raised> {
    if h != Unset then Success(h)
    else if name.None? then Success(Absent)
    else if read.None? then Failure(HandlerNameError)
    else Success(Loaded(read.value))
  }

  /** The discrepancy: configured but unreadable templates raise instead
      of caching `False`, and the next call tries again. */
  lemma HeaderHandlerRaises(name: string)
    ensures ResolveAsWritten(Unset, Some(name), None) == Failure(HandlerNameError)
    ensures Resolve(Unset, Some(name), None) == Absent
  {
  }

  /** Everywhere else the code as written does what the corrected one
      does. */
  lemma AsWrittenAgrees(h: Cached, name: Option<string>, read: Option<string>)
    requires !(h == Unset && name.Some? && read.None?)
    ensures ResolveAsWritten(h, name, read) == Success(Resolve(h, name, read))
  {
  }

  // ---------------------------------------------------------------------
  // The writer

  class Contents {
    var header: Cached

    constructor()
      ensures header == Unset
    {
      header := Unset;
    }

    /** `_getHeader` with the handler corrected. */
    method GetHeader(name: Option<string>, read: Option<string>) returns (h: Cached)
      modifies this
      ensures header == Resolve(old(header), name, read)
      ensures h == header
    {
      if header == Unset {
        if name.Some? {
          if read.Some? {
            header := Loaded(read.value);
          } else {
            header := Absent;
          }
        } else {
          header := Absent;
        }
      }
      h := header;
    }

    /** `_getHeader` as written. */
    method GetHeaderAsWritten(name: Option<string>, read: Option<string>) returns (r: Result<Cached, Raised>)
      modifies this
      ensures r == ResolveAsWritten(old(header), name, read)
      ensures header == if r.Success? then r.value else old(header)
    {
      if header == Unset {
        if name.Some? {
          if read.Some? {
            header := Loaded(read.value);
          } else {
            return Failure(HandlerNameError);
          }
        } else {
          header := Absent;
        }
      }
      r := Success(header);
    }

    /** `_write_content_file`: the header when it is truthy, then one line
        per row of the result set. */
    method WriteContentFile(rows: seq<Row>, name: Option<string>, read: Option<string>) returns (text: string)
      modifies this
      ensures header == Resolve(old(header), name, read)
      ensures text == HeaderText(header) + Body(rows)
    {
      var h := GetHeader(name, read);
      ghost var prefix := HeaderText(h);
      text := if Truthy(h) then h.text else "";
      var k := 0;
      while k < |rows|
        invariant 0 <= k <= |rows|
        invariant text == prefix + Body(rows[..k])
        invariant header == h
      {
        var numTabs := (GoalColumn - |rows[k].path| - 1) / 8;
        if numTabs < 1 {
          numTabs := 1;
        }
        var line := rows[k].path + Tabs(numTabs) + rows[k].last + "\n";
        BodyExtend(prefix, rows, k);
        text := text + line;
        k := k + 1;
      }
      assert rows[..k] == rows;
    }
  }

  /** One more row of the loop in `WriteContentFile`. */
  lemma BodyExtend(prefix: string, rows: seq<Row>, k: nat)
    requires k < |rows|
    ensures prefix + Body(rows[..k + 1]) == prefix + Body(rows[..k]) + RowText(rows[k])
  {
    BodySnoc(rows[..k], rows[k]);
    assert rows[..k + 1] == rows[..k] + [rows[k]];
  }

  /** The rows of a written file read back in order after its header. */
  lemma WrittenRows(c: Cached, rows: seq<Row>)
    requires forall i :: 0 <= i < |rows| ==> Plain(rows[i])
    ensures var body := (HeaderText(c) + Body(rows))[|HeaderText(c)|..];
      |Lines(body)| == |rows| &&
      forall i :: 0 <= i < |rows| ==> DecodeLine(Lines(body)[i]) == rows[i]
  {
    var t := HeaderText(c) + Body(rows);
    assert t[|HeaderText(c)|..] == Body(rows);
    BodyRoundTrip(rows);
  }

  // ---------------------------------------------------------------------
  // Suites and architectures

  /** `_suites`: the `Suite` option split by `split_args`, otherwise every
      configured suite. */
  function Suites(option: Option<string>, configured: seq<string>): (r: Result<seq<string>, SplitError>)
    ensures option.None? ==> r == Success(configured)
    ensures option.Some? && NoChar(option.value, ',') ==> r == Success(Words(option.value))
    ensures option.Some? && r.Success? ==> r == SplitArgs(option.value, true)
  {
    if option.Some? then SplitArgs(option.value, true) else Success(configured)
  }

  /** An architecture: its database id and its name. */
  type Arch = (int, string)

  /** The architectures named on the command line, each with its id. */
  function Named(names: seq<string>, idOf: string -> int): (r: seq<Arch>)
    ensures |r| == |names|
    ensures forall i :: 0 <= i < |r| ==> r[i] == (idOf(names[i]), names[i])
    decreases |names|
  {
    if names == [] then [] else [(idOf(names[0]), names[0])] + Named(names[1..], idOf)
  }

  /** The architectures the database delivers for the suite, without the
      pseudo-architectures `source` and `all`. */
  function Delivered(rows: seq<Arch>): (r: seq<Arch>)
    ensures |r| <= |rows|
    decreases |rows|
  {
    if rows == [] then []
    else
      var rest := Delivered(rows[1..]);
      if rows[0].1 != "source" && rows[0].1 != "all" then [rows[0]] + rest else rest
  }

  /** Exactly the rows other than `source` and `all` are delivered. */
  lemma {:induction false} DeliveredFilters(rows: seq<Arch>)
    ensures forall a :: a in Delivered(rows) <==> a in rows && a.1 != "source" && a.1 != "all"
    decreases |rows|
  {
    if rows != [] {
      DeliveredFilters(rows[1..]);
      assert forall a :: a in rows <==> a == rows[0] || a in rows[1..];
    }
  }

  /** `_arches`: the `Arch` option taken as given, or the database rows
      filtered. */
  function ArchesSpec(option: Option<string>, idOf: string -> int, rows: seq<Arch>): Result<seq<Arch>, SplitError> {
    if option.None? then Success(Delivered(rows))
    else
      match SplitArgs(option.value, true)
      case Failure(e) => Failure(e)
      case Success(names) => Success(Named(names, idOf))
  }

  /** `_arches` with its two loops. */
  method Arches(option: Option<string>, idOf: string -> int, rows: seq<Arch>) returns (r: Result<seq<Arch>, SplitError>)
    ensures r == ArchesSpec(option, idOf, rows)
  {
    var archList: seq<Arch> := [];
    if option.Some? {
      var archs := SplitArgs(option.value, true);
      if archs.Failure? {
        return Failure(archs.error);
      }
      var names := archs.value;
      for i := 0 to |names|
        invariant archList == Named(names[..i], idOf)
      {
        NamedSnoc(names, i, idOf);
        archList := archList + [(idOf(names[i]), names[i])];
      }
      assert names[..|names|] == names;
      assert ArchesSpec(option, idOf, rows) == Success(archList);
    } else {
      var k := 0;
      while k < |rows|
        invariant 0 <= k <= |rows|
        invariant Delivered(rows) == archList + Delivered(rows[k..])
      {
        DeliveredStep(rows, k);
        ghost var rest := Delivered(rows[k + 1..]);
        if rows[k].1 != "source" && rows[k].1 != "all" {
          assert archList + ([rows[k]] + rest) == (archList + [rows[k]]) + rest;
          archList := archList + [rows[k]];
        } else {
          assert [] + rest == rest;
        }
        k := k + 1;
      }
      assert rows[k..] == [];
      assert archList + [] == archList;
      assert ArchesSpec(option, idOf, rows) == Success(archList);
    }
    r := Success(archList);
  }

  lemma NamedSnoc(names: seq<string>, i: nat, idOf: string -> int)
    requires i < |names|
    ensures Named(names[..i + 1], idOf) == Named(names[..i], idOf) + [(idOf(names[i]), names[i])]
  {
    var a := Named(names[..i + 1], idOf);
    var b := Named(names[..i], idOf) + [(idOf(names[i]), names[i])];
    assert |a| == |b|;
    forall j | 0 <= j < |a|
      ensures a[j] == b[j]
    {
    }
  }

  lemma DeliveredStep(rows: seq<Arch>, k: nat)
    requires k < |rows|
    ensures Delivered(rows[k..]) == (if rows[k].1 != "source" && rows[k].1 != "all" then [rows[k]] else []) + Delivered(rows[k + 1..])
  {
    assert rows[k..][1..] == rows[k + 1..];
  }

  /** The two branches filter differently: a pseudo-architecture named
      in the `Arch` option is kept, while the database's never is. */
  lemma ArchesInconsistent(idOf: string -> int, rows: seq<Arch>)
    ensures ArchesSpec(Some("source"), idOf, rows) == Success([(idOf("source"), "source")])
    ensures ArchesSpec(None, idOf, rows).Success?
    ensures forall a :: a in ArchesSpec(None, idOf, rows).value ==> a.1 != "source"
  {
    DeliveredFilters(rows);
    var s := "source";
    assert NoChar(s, ',');
    assert IsToken(s);
    WordsToken(s, "");
    assert s + "" == s;
    assert Words(s) == [s];
    assert SplitArgs(s, true) == Success([s]);
    assert Named([s], idOf) == [(idOf(s), s)];
  }
}
