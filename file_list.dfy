/** `build_file_list` and `extract_component_from_section`
    (dak/lib/utils.py): turning the `Files:` field of a parsed `.changes`
    or `.dsc` file into a map from file name to its checksum, size,
    section, priority and archive component. */
module FileList {
  import opened Results
  import opened Text

  // ---------------------------------------------------------------------
  // extract_component_from_section

  /** What precedes the first slash of `section`, or "" without a slash. */
  function SlashHead(section: string): string {
    if NoChar(section, '/') then "" else SplitOn(section, '/')[0]
  }

  /** `s.lower() == t`, character by character. */
  predicate LowerIs(s: string, t: string) {
    |s| == |t| && forall i :: 0 <= i < |s| ==> LowerChar(s[i]) == t[i]
  }

  lemma {:induction false} LowerIsLower(s: string, t: string)
    ensures LowerIs(s, t) <==> Lower(s) == t
  {
    LowerAt(s);
  }

  /** `s.lower()[:6] == "non-us"`. */
  predicate NonUsPrefix(s: string) {
    |s| >= 6 && LowerIs(s[..6], "non-us")
  }

  /** `extract_component_from_section(section)`: the section, unchanged,
      and the component it names. `components` holds the names that have
      a `Component::<name>` entry in the configuration. The `non-US`
      prefix is case-insensitive and `non-US` alone means `non-US/main`;
      with no component in the section, a configured section name is its
      own component, otherwise `main`. */
  function ExtractComponent(section: string, components: set<string>): (r: (string, string))
    ensures r.0 == section
    ensures r.1 == "" <==> section == "" && "" in components
    ensures r.1 != "non-US"
    ensures NoChar(section, '/') && !LowerIs(section, "non-us") ==>
      r.1 == (if section in components then section else "main")
    ensures LowerIs(section, "non-us") ==> r.1 == "non-US/main"
  {
    var c1 := SlashHead(section);
    var c2 :=
      if LowerIs(c1, "non-us") && !NoChar(section, '/') then
        SplitOnSeveral(section, '/');
        var s := c1 + "/" + SplitOn(section, '/')[1];
        if s in components then s else c1
      else c1;
    var c3 := if LowerIs(section, "non-us") then "non-US/main" else c2;
    var c4 := if NonUsPrefix(c3) then "non-US" + c3[6..] else c3;
    var c5 :=
      if c4 == "" then (if section in components then section else "main")
      else if c4 == "non-US" then "non-US/main"
      else c4;
    assert section == "non-US" ==> LowerIs(section, "non-us");
    (section, c5)
  }

  /** A section `comp/rest` whose first part does not begin with `non-us`
      (in any case) names that part as its component, or the default
      when the part is empty. */
  lemma {:induction false} ComponentOfHead(comp: string, rest: string, components: set<string>)
    requires NoChar(comp, '/') && !NonUsPrefix(comp)
    ensures var section := comp + "/" + rest;
      ExtractComponent(section, components).1 ==
        if comp == "" then (if section in components then section else "main") else comp
  {
    var section := comp + "/" + rest;
    assert section == comp + ([ '/' ] + rest);
    SplitOnPrefix(comp, '/', rest);
    assert section[|comp|] == '/';
    assert SlashHead(section) == comp;
    assert !LowerIs(section, "non-us") by {
      if |section| == 6 {
        assert LowerChar(section[|comp|]) == '/';
      }
    }
    assert |comp| == 6 ==> comp[..6] == comp;
  }

  /** A section whose first part begins with `non-us` in any case gets a
      component spelled `non-US`. */
  lemma {:induction false} NonUsComponent(comp: string, rest: string, components: set<string>)
    requires NoChar(comp, '/') && NonUsPrefix(comp)
    ensures Take(ExtractComponent(comp + "/" + rest, components).1, 6) == "non-US"
  {
    var section := comp + "/" + rest;
    assert section == comp + ([ '/' ] + rest);
    SplitOnPrefix(comp, '/', rest);
    assert section[|comp|] == '/';
    assert SlashHead(section) == comp;
    forall x: string
      ensures NonUsPrefix(comp + x)
    {
      assert (comp + x)[..6] == comp[..6];
    }
    assert NonUsPrefix("non-US/main");
  }

  // ---------------------------------------------------------------------
  // build_file_list

  /** The exceptions `build_file_list` raises: `no_files_exc`,
      `nk_format_exc` with the format, the `ValueError` of `float()` on a
      malformed `Format:` field, and `changes_parse_error_exc` with the
      offending line. */
  datatype ListError =
    | NoFiles
    | UnknownFormat(format: string)
    | BadFloat(format: string)
    | UnparsableLine(line: string)

  /** The record stored for one file of the `Files:` field. */
  datatype FileEntry = FileEntry(md5sum: string, size: string, section: string,
                                 priority: string, component: string)

  /** A decimal literal: `num / 10^scale`. */
  datatype Decimal = Decimal(num: int, scale: nat)

  function Pow10(n: nat): (r: nat)
    ensures r >= 1
  {
    if n == 0 then 1 else 10 * Pow10(n - 1)
  }

  function Value(d: Decimal): real {
    d.num as real / Pow10(d.scale) as real
  }

  /** `float(s)` on plain decimal notation: surrounding whitespace, an
      optional sign, digits with at most one point and at least one digit.
      None stands for the `ValueError` it raises otherwise. */
  function ParseFloat(s: string): Option<Decimal> {
    ParseSigned(Strip(s))
  }

  /** An optional sign, then an unsigned number. */
  function ParseSigned(t: string): Option<Decimal> {
    if |t| > 0 && (t[0] == '-' || t[0] == '+') then
      match ParseUnsigned(t[1..])
      case None => None
      case Some(d) => Some(if t[0] == '-' then Decimal(-d.num, d.scale) else d)
    else ParseUnsigned(t)
  }

  /** Digits with at most one point, at least one digit in all. */
  function ParseUnsigned(body: string): Option<Decimal> {
    var i := FirstOf(body, '.');
    Number(body[..i], if i < |body| then body[i + 1..] else "")
  }

  /** The number with integer digits `whole` and fraction digits `frac`. */
  function Number(whole: string, frac: string): Option<Decimal> {
    if AllDigits(whole) && AllDigits(frac) && |whole| + |frac| > 0 then
      Some(Decimal(DigitsValue(whole + frac), |frac|))
    else None
  }

  /** The formats of the `Files:` field the archive understands: the
      check `format < 1.5 or format > 2.0` fails, in whole numbers. */
  predicate Supported(d: Decimal) {
    var p := Pow10(d.scale);
    !(2 * d.num < 3 * p || d.num > 2 * p)
  }

  /** `Supported` is the range from 1.5 to 2.0 of the number's value. */
  lemma SupportedValue(d: Decimal)
    ensures Supported(d) <==> 1.5 <= Value(d) <= 2.0
  {
    var n := Pow10(d.scale);
    var p := n as real;
    var a := d.num as real;
    assert Value(d) == a / p;
    DivCompare(a, 1.5, p);
    DivCompare(a, 2.0, p);
    assert (2 * d.num < 3 * n) <==> a < 1.5 * p;
    assert (d.num > 2 * n) <==> 2.0 * p < a;
  }

  /** Comparing a quotient against a constant is comparing the dividend
      against the scaled constant. */
  lemma DivCompare(a: real, y: real, p: real)
    requires p > 0.0
    ensures a / p < y <==> a < y * p
    ensures y < a / p <==> y * p < a
  {
    var v := a / p;
    assert v * p == a;
    if v < y {
      assert (y - v) * p > 0.0;
    } else {
      assert (v - y) * p >= 0.0;
    }
    if y < v {
      assert (v - y) * p > 0.0;
    } else {
      assert (y - v) * p >= 0.0;
    }
  }

  function FormatOf(changes: map<string, string>): string {
    if "format" in changes then changes["format"] else ""
  }

  /** The format check ahead of the loop: a present `Format:` must be a
      number, and outside a `.dsc` it must lie between 1.5 and 2.0; an
      absent one is refused outside a `.dsc` too (Python 2 orders the
      empty string above every number). */
  function FormatProblem(changes: map<string, string>, isDsc: bool): Option<ListError> {
    var format := FormatOf(changes);
    if format != "" && ParseFloat(format).None? then Some(BadFloat(format))
    else if !isDsc && (format == "" || !Supported(ParseFloat(format).value)) then
      Some(UnknownFormat(format))
    else None
  }

  /** Empty section and priority read as `-`; the section then yields the
      component. */
  function MakeEntry(md5: string, size: string, section: string, priority: string,
                     components: set<string>): FileEntry
  {
    var sec := if section == "" then "-" else section;
    var pri := if priority == "" then "-" else priority;
    var sc := ExtractComponent(sec, components);
    FileEntry(md5, size, sc.0, pri, sc.1)
  }

  /** One line of the field: `md5 size name` in a `.dsc`, `md5 size section
      priority name` otherwise; any other number of words is a parse
      error. The result pairs the file name with its record. */
  function EntryOf(line: string, isDsc: bool, components: set<string>): Result<(string, FileEntry), ListError> {
    var s := Words(line);
    if isDsc && |s| == 3 then Success((s[2], MakeEntry(s[0], s[1], "", "", components)))
    else if !isDsc && |s| == 5 then Success((s[4], MakeEntry(s[0], s[1], s[2], s[3], components)))
    else Failure(UnparsableLine(line))
  }

  /** The number of lines the loop reads: those before the first empty
      one. */
  function Blank(lines: seq<string>): (n: nat)
    ensures n <= |lines|
    ensures forall i :: 0 <= i < n ==> lines[i] != ""
    ensures n < |lines| ==> lines[n] == ""
    decreases |lines|
  {
    if lines == [] || lines[0] == "" then 0 else 1 + Blank(lines[1..])
  }

  /** What each line the loop reads parses to, in order. */
  function Parsed(lines: seq<string>, isDsc: bool, components: set<string>): (rs: seq<Result<(string, FileEntry), ListError>>)
    ensures |rs| == Blank(lines)
    decreases |lines|
  {
    if lines == [] || lines[0] == "" then []
    else [EntryOf(lines[0], isDsc, components)] + Parsed(lines[1..], isDsc, components)
  }

  /** `Parsed` has an entry for exactly the lines before the first empty
      one, and it is that line's parse. */
  lemma {:induction false} ParsedAt(lines: seq<string>, isDsc: bool, components: set<string>)
    ensures forall i :: 0 <= i < Blank(lines) ==>
      Parsed(lines, isDsc, components)[i] == EntryOf(lines[i], isDsc, components)
    decreases |lines|
  {
    if lines != [] && lines[0] != "" {
      ParsedAt(lines[1..], isDsc, components);
      assert forall i :: 1 <= i < Blank(lines) ==> lines[i] == lines[1..][i - 1];
    }
  }

  /** The loop body over the parsed lines in order: a later entry for a
      name replaces the earlier one, and the first error ends the loop. */
  function Gather(rs: seq<Result<(string, FileEntry), ListError>>,
                  files: map<string, FileEntry>): Result<map<string, FileEntry>, ListError>
    decreases |rs|
  {
    if rs == [] then Success(files)
    else match rs[0]
      case Failure(e) => Failure(e)
      case Success(p) => Gather(rs[1..], files[p.0 := p.1])
  }

  /** What `build_file_list(changes, is_a_dsc)` returns or raises. */
  function FileListSpec(changes: map<string, string>, isDsc: bool,
                        components: set<string>): Result<map<string, FileEntry>, ListError>
  {
    if "files" !in changes then Failure(NoFiles)
    else match FormatProblem(changes, isDsc)
      case Some(e) => Failure(e)
      case None => Gather(Parsed(SplitOn(changes["files"], '\n'), isDsc, components), map[])
  }

  /** `build_file_list`: the checks, then the loop over the lines. */
  method BuildFileList(changes: map<string, string>, isDsc: bool, components: set<string>)
    returns (r: Result<map<string, FileEntry>, ListError>)
    ensures r == FileListSpec(changes, isDsc, components)
  {
    if "files" !in changes {
      return Failure(NoFiles);
    }
    var problem := FormatProblem(changes, isDsc);
    if problem.Some? {
      return Failure(problem.value);
    }
    var lines := SplitOn(changes["files"], '\n');
    var files: map<string, FileEntry> := map[];
    var k := 0;
    while k < |lines|
      invariant 0 <= k <= |lines|
      invariant Gather(Parsed(lines, isDsc, components), map[]) ==
        Gather(Parsed(lines[k..], isDsc, components), files)
    {
      if lines[k] == "" {
        break;
      }
      var e := EntryOf(lines[k], isDsc, components);
      assert lines[k..][1..] == lines[k + 1..];
      if e.Failure? {
        return Failure(e.error);
      }
      files := files[e.value.0 := e.value.1];
      k := k + 1;
    }
    return Success(files);
  }

  // ---------------------------------------------------------------------
  // What the file list holds

  predicate AllOk(rs: seq<Result<(string, FileEntry), ListError>>) {
    forall i :: 0 <= i < |rs| ==> rs[i].Success?
  }

  /** `r` is an entry for file `name`. */
  predicate Names(r: Result<(string, FileEntry), ListError>, name: string) {
    r.Success? && r.value.0 == name
  }

  /** The loop succeeds exactly when every line it reads parses. */
  lemma {:induction false} GatherOk(rs: seq<Result<(string, FileEntry), ListError>>,
                                    files: map<string, FileEntry>)
    ensures Gather(rs, files).Success? <==> AllOk(rs)
    decreases |rs|
  {
    if rs != [] && rs[0].Success? {
      GatherOk(rs[1..], files[rs[0].value.0 := rs[0].value.1]);
      assert forall i :: 1 <= i < |rs| ==> rs[i] == rs[1..][i - 1];
    }
  }

  /** A failing loop reports the error of the first line that does not
      parse. */
  lemma {:induction false} GatherError(rs: seq<Result<(string, FileEntry), ListError>>,
                                       files: map<string, FileEntry>)
    requires Gather(rs, files).Failure?
    ensures exists i ::
      0 <= i < |rs| && rs[i].Failure? && AllOk(rs[..i]) && Gather(rs, files).error == rs[i].error
    decreases |rs|
  {
    if rs[0].Failure? {
      assert AllOk(rs[..0]);
    } else {
      GatherError(rs[1..], files[rs[0].value.0 := rs[0].value.1]);
      var i :| 0 <= i < |rs[1..]| && rs[1..][i].Failure? && AllOk(rs[1..][..i]) &&
        Gather(rs[1..], files[rs[0].value.0 := rs[0].value.1]).error == rs[1..][i].error;
      assert rs[..i + 1] == [rs[0]] + rs[1..][..i];
    }
  }

  /** The names in the map: those given beforehand and those of the lines
      read. */
  lemma {:induction false} GatherKeys(rs: seq<Result<(string, FileEntry), ListError>>,
                                      files: map<string, FileEntry>, n: string)
    requires AllOk(rs)
    ensures Gather(rs, files).Success?
    ensures n in Gather(rs, files).value <==> n in files || exists i :: 0 <= i < |rs| && Names(rs[i], n)
    decreases |rs|
  {
    if rs != [] {
      var e := rs[0].value;
      assert AllOk(rs[1..]) by {
        assert forall i :: 0 <= i < |rs| - 1 ==> rs[1..][i] == rs[i + 1];
      }
      GatherKeys(rs[1..], files[e.0 := e.1], n);
      if exists i :: 0 <= i < |rs[1..]| && Names(rs[1..][i], n) {
        var i :| 0 <= i < |rs[1..]| && Names(rs[1..][i], n);
        assert rs[i + 1] == rs[1..][i];
      }
      if exists i :: 0 <= i < |rs| && Names(rs[i], n) {
        var i :| 0 <= i < |rs| && Names(rs[i], n);
        if i > 0 {
          assert rs[1..][i - 1] == rs[i];
        }
      }
    }
  }

  /** A name no line read mentions keeps its earlier record. */
  lemma {:induction false} GatherKept(rs: seq<Result<(string, FileEntry), ListError>>,
                                      files: map<string, FileEntry>, n: string)
    requires AllOk(rs) && n in files
    requires forall i :: 0 <= i < |rs| ==> !Names(rs[i], n)
    ensures Gather(rs, files).Success?
    ensures n in Gather(rs, files).value && Gather(rs, files).value[n] == files[n]
    decreases |rs|
  {
    if rs != [] {
      var e := rs[0].value;
      assert !Names(rs[0], n);
      assert forall i :: 0 <= i < |rs| - 1 ==> rs[1..][i] == rs[i + 1];
      GatherKept(rs[1..], files[e.0 := e.1], n);
    }
  }

  /** The record of a name is that of the last line read naming it. */
  lemma {:induction false} GatherLast(rs: seq<Result<(string, FileEntry), ListError>>,
                                      files: map<string, FileEntry>, i: nat, n: string)
    requires AllOk(rs)
    requires i < |rs| && Names(rs[i], n)
    requires forall j :: i < j < |rs| ==> !Names(rs[j], n)
    ensures Gather(rs, files).Success?
    ensures n in Gather(rs, files).value && Gather(rs, files).value[n] == rs[i].value.1
    decreases |rs|
  {
    var e := rs[0].value;
    assert forall j :: 0 <= j < |rs| - 1 ==> rs[1..][j] == rs[j + 1];
    if i > 0 {
      GatherLast(rs[1..], files[e.0 := e.1], i - 1, n);
    } else {
      GatherKept(rs[1..], files[e.0 := e.1], n);
    }
  }

  // ---------------------------------------------------------------------
  // build_file_list as a whole

  /** `no_files_exc` is raised exactly when there is no `Files:` field. */
  lemma FileListNoFiles(changes: map<string, string>, isDsc: bool, components: set<string>)
    ensures FileListSpec(changes, isDsc, components) == Failure(NoFiles) <==> "files" !in changes
  {
    if "files" in changes && FormatProblem(changes, isDsc).None? {
      var rs := Parsed(SplitOn(changes["files"], '\n'), isDsc, components);
      if Gather(rs, map[]).Failure? {
        GatherError(rs, map[]);
        var i :| 0 <= i < |rs| && rs[i].Failure? && AllOk(rs[..i]) && Gather(rs, map[]).error == rs[i].error;
        Unparsable(SplitOn(changes["files"], '\n'), isDsc, components, i);
      }
    }
  }

  /** Every error of `Parsed` is a parse error of its line. */
  lemma Unparsable(lines: seq<string>, isDsc: bool, components: set<string>, i: nat)
    requires i < |Parsed(lines, isDsc, components)|
    requires Parsed(lines, isDsc, components)[i].Failure?
    ensures i < Blank(lines)
    ensures Parsed(lines, isDsc, components)[i].error == UnparsableLine(lines[i])
  {
    ParsedAt(lines, isDsc, components);
  }

  /** Once the checks pass, the call succeeds exactly when every line
      before the first empty one parses (`Parsed`, whose `i`-th element
      is the parse of line `i`, by `ParsedAt`), and otherwise reports the
      first line that does not. */
  lemma FileListLines(changes: map<string, string>, isDsc: bool, components: set<string>)
    requires "files" in changes && FormatProblem(changes, isDsc).None?
    ensures FileListSpec(changes, isDsc, components) ==
      Gather(Parsed(SplitOn(changes["files"], '\n'), isDsc, components), map[])
    ensures var lines := SplitOn(changes["files"], '\n');
      var rs := Parsed(lines, isDsc, components);
      (FileListSpec(changes, isDsc, components).Success? <==> AllOk(rs)) &&
      (FileListSpec(changes, isDsc, components).Failure? ==>
         exists i :: 0 <= i < |rs| && rs[i].Failure? && AllOk(rs[..i]) &&
           FileListSpec(changes, isDsc, components) == Failure(UnparsableLine(lines[i])))
  {
    var lines := SplitOn(changes["files"], '\n');
    var rs := Parsed(lines, isDsc, components);
    GatherOk(rs, map[]);
    if Gather(rs, map[]).Failure? {
      GatherError(rs, map[]);
      var i :| 0 <= i < |rs| && rs[i].Failure? && AllOk(rs[..i]) && Gather(rs, map[]).error == rs[i].error;
      Unparsable(lines, isDsc, components, i);
    }
  }

  /** A successful call passed the checks and every line it read parsed. */
  lemma FileListGather(changes: map<string, string>, isDsc: bool, components: set<string>)
    requires FileListSpec(changes, isDsc, components).Success?
    ensures "files" in changes && FormatProblem(changes, isDsc).None?
    ensures var rs := Parsed(SplitOn(changes["files"], '\n'), isDsc, components);
      AllOk(rs) && FileListSpec(changes, isDsc, components) == Gather(rs, map[])
  {
    var rs := Parsed(SplitOn(changes["files"], '\n'), isDsc, components);
    GatherOk(rs, map[]);
  }

  /** A successful call maps exactly the names of the lines before the
      first empty one. */
  lemma FileListKeys(changes: map<string, string>, isDsc: bool, components: set<string>, n: string)
    requires FileListSpec(changes, isDsc, components).Success?
    ensures "files" in changes
    ensures var rs := Parsed(SplitOn(changes["files"], '\n'), isDsc, components);
      n in FileListSpec(changes, isDsc, components).value <==>
        exists i :: 0 <= i < |rs| && Names(rs[i], n)
  {
    FileListGather(changes, isDsc, components);
    var rs := Parsed(SplitOn(changes["files"], '\n'), isDsc, components);
    GatherKeys(rs, map[], n);
  }

  /** When several lines name the same file, the last of them wins. */
  lemma FileListLast(changes: map<string, string>, isDsc: bool, components: set<string>, i: nat, n: string)
    requires FileListSpec(changes, isDsc, components).Success?
    requires "files" in changes
    requires var rs := Parsed(SplitOn(changes["files"], '\n'), isDsc, components);
      i < |rs| && Names(rs[i], n) && forall j :: i < j < |rs| ==> !Names(rs[j], n)
    ensures var rs := Parsed(SplitOn(changes["files"], '\n'), isDsc, components);
      var m := FileListSpec(changes, isDsc, components).value;
      n in m && m[n] == rs[i].value.1
  {
    FileListGather(changes, isDsc, components);
    var rs := Parsed(SplitOn(changes["files"], '\n'), isDsc, components);
    GatherLast(rs, map[], i, n);
  }

  // ---------------------------------------------------------------------
  // One line of the field

  /** A line parses exactly when it has three words (`.dsc`) or five. */
  lemma EntryWords(line: string, isDsc: bool, components: set<string>)
    ensures EntryOf(line, isDsc, components).Success? <==> |Words(line)| == if isDsc then 3 else 5
    ensures EntryOf(line, isDsc, components).Success? ==>
      EntryOf(line, isDsc, components).value.0 == Words(line)[|Words(line)| - 1]
  {
  }

  /** In a `.dsc` the section and the priority are `-` and the component
      is the one configured as `-`, or `main`. */
  lemma DscEntry(line: string, components: set<string>)
    requires EntryOf(line, true, components).Success?
    ensures var e := EntryOf(line, true, components).value.1;
      e.section == "-" && e.priority == "-" &&
      e.component == if "-" in components then "-" else "main"
  {
    assert NoChar("-", '/') && !LowerIs("-", "non-us");
  }

  /** Parsing the line `md5 size section priority name` gives back its
      fields. */
  lemma EntryOfLine(md5: Token, size: Token, section: Token, priority: Token, name: Token,
                    components: set<string>)
    ensures EntryOf(Join(" ", [md5, size, section, priority, name]), false, components) ==
      Success((name, FileEntry(md5, size, section, priority, ExtractComponent(section, components).1)))
  {
    WordsJoin([md5, size, section, priority, name]);
  }

  /** Parsing the `.dsc` line `md5 size name` gives back its fields. */
  lemma DscEntryOfLine(md5: Token, size: Token, name: Token, components: set<string>)
    ensures EntryOf(Join(" ", [md5, size, name]), true, components) ==
      Success((name, FileEntry(md5, size, "-", "-", if "-" in components then "-" else "main")))
  {
    WordsJoin([md5, size, name]);
    assert NoChar("-", '/') && !LowerIs("-", "non-us");
  }

  // ---------------------------------------------------------------------
  // The format check

  /** A `.dsc` accepts an absent format and any number; outside a `.dsc`
      the format must be present. */
  lemma FormatGate(changes: map<string, string>, isDsc: bool)
    ensures isDsc ==> (FormatProblem(changes, isDsc).None? <==>
      FormatOf(changes) == "" || ParseFloat(FormatOf(changes)).Some?)
    ensures !isDsc ==> (FormatProblem(changes, isDsc).None? <==>
      FormatOf(changes) != "" && ParseFloat(FormatOf(changes)).Some? &&
      Supported(ParseFloat(FormatOf(changes)).value))
    ensures FormatProblem(changes, isDsc).Some? ==>
      FormatProblem(changes, isDsc).value in {BadFloat(FormatOf(changes)), UnknownFormat(FormatOf(changes))}
  {
  }

  /** `DigitsValue` reads a concatenation as positional notation. */
  lemma {:induction false} DigitsValueAppend(a: string, b: string)
    requires AllDigits(a) && AllDigits(b)
    ensures AllDigits(a + b)
    ensures DigitsValue(a + b) == DigitsValue(a) * Pow10(|b|) + DigitsValue(b)
    decreases |b|
  {
    if b == [] {
      assert a + b == a;
    } else {
      var b' := b[..|b| - 1];
      var ab := a + b;
      assert ab[..|ab| - 1] == a + b';
      assert ab[|ab| - 1] == b[|b| - 1];
      DigitsValueAppend(a, b');
      var x := DigitsValue(a);
      var p := Pow10(|b'|);
      var y := DigitsValue(b');
      var d := DigitValue(b[|b| - 1]);
      assert DigitsValue(ab) == DigitsValue(a + b') * 10 + d;
      assert DigitsValue(b) == y * 10 + d;
      assert Pow10(|b|) == 10 * p;
      ShiftDigit(x, p, y, d);
    }
  }

  lemma ShiftDigit(x: int, p: int, y: int, d: int)
    ensures (x * p + y) * 10 + d == x * (10 * p) + (y * 10 + d)
  {
  }

  /** A string that starts with a digit and does not end in whitespace
      reads as an unsigned number. */
  lemma ParseFloatPlain(t: string)
    requires t != [] && IsDigit(t[0]) && !IsSpace(t[|t| - 1])
    ensures ParseFloat(t) == ParseUnsigned(t)
  {
    StripPlain(t);
  }

  /** Digits, a point, digits. */
  lemma ParseUnsignedPoint(w: string, frac: string)
    requires AllDigits(w) && AllDigits(frac) && w != []
    ensures ParseUnsigned(w + "." + frac) == Some(Decimal(DigitsValue(w + frac), |frac|))
  {
    var t := w + "." + frac;
    NoDotInDigits(w);
    assert t == w + (['.'] + frac);
    FirstOfPrefix(w, '.', frac);
    assert t[..|w|] == w && t[|w| + 1..] == frac;
    assert ParseUnsigned(t) == Number(w, frac);
    DigitsValueAppend(w, frac);
  }

  /** `float` of digits, a point and digits: all the digits read as one
      whole number, scaled down by the number of digits after the point
      (`DigitsValueAppend` reads them positionally). */
  lemma ParseFloatPoint(w: string, frac: string)
    requires AllDigits(w) && AllDigits(frac) && w != []
    ensures ParseFloat(w + "." + frac) == Some(Decimal(DigitsValue(w + frac), |frac|))
  {
    var t := w + "." + frac;
    assert t[0] == w[0];
    assert t[|t| - 1] == if frac == [] then '.' else frac[|frac| - 1];
    ParseFloatPlain(t);
    ParseUnsignedPoint(w, frac);
  }

  /** `float` of an integer written in digits. */
  lemma ParseFloatInt(n: int)
    ensures ParseFloat(IntToString(n)) == Some(Decimal(n, 0))
  {
    var t := IntToString(n);
    var m: nat := if n < 0 then -n else n;
    var w := NatToString(m);
    DigitsOfNat(m);
    NatDigits(m);
    NoDotInDigits(w);
    FirstOfAbsent(w, '.');
    assert w[..|w|] == w && w + "" == w;
    assert ParseUnsigned(w) == Some(Decimal(m, 0));
    if n < 0 {
      assert t == "-" + w && t[1..] == w;
      assert t[|t| - 1] == w[|w| - 1];
    } else {
      assert t == w;
    }
    StripPlain(t);
  }

  /** An integer format is supported only as 2. */
  lemma IntFormatSupported(n: int)
    ensures Supported(Decimal(n, 0)) <==> n == 2
  {
  }

  lemma NoDotInDigits(s: string)
    requires AllDigits(s)
    ensures NoChar(s, '.')
  {
  }
}
