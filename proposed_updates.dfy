/** The proposed-updates cleaner (dak/clean_proposed_updates.py): the
    table of versions currently in proposed-updates, the check of one
    `.changes` file against it, and the walk over an admin file of
    install lines. The database query, the regular expressions that
    split file names, the file system and the console are replaced by
    the values they yield. */
module ProposedUpdates {
  import opened Results
  import opened Text
  import Changes
  import FileList

  // ---------------------------------------------------------------------
  // re_no_epoch

  /** The length of the run of ASCII digits `s` starts with. */
  function LeadingDigits(s: string): (n: nat)
    ensures n <= |s|
    decreases |s|
  {
    if s != [] && IsDigit(s[0]) then LeadingDigits(s[1..]) + 1 else 0
  }

  lemma {:induction false} LeadingDigitsRun(s: string)
    ensures var n := LeadingDigits(s);
      AllDigits(s[..n]) && (n < |s| ==> !IsDigit(s[n]))
    decreases |s|
  {
    if s != [] && IsDigit(s[0]) {
      LeadingDigitsRun(s[1..]);
      var n := LeadingDigits(s[1..]);
      assert s[..n + 1] == [s[0]] + s[1..][..n];
    }
  }

  /** `re_no_epoch.sub('', v)` with `re_no_epoch = ^\d+\:`: a leading run
      of digits closed by a colon is removed. */
  function StripEpoch(v: string): string {
    var n := LeadingDigits(v);
    if 0 < n < |v| && v[n] == ':' then v[n + 1..] else v
  }

  /** What is removed is a non-empty run of digits and its colon. */
  lemma StripEpochShape(v: string)
    ensures var r := StripEpoch(v);
      r == v || (|r| + 2 <= |v| && r == v[|v| - |r|..] &&
                 v[|v| - |r| - 1] == ':' && AllDigits(v[..|v| - |r| - 1]))
  {
    LeadingDigitsRun(v);
  }

  /** Any epoch, leading zeros included, is removed, and only it. */
  lemma EpochRemoved(epoch: string, rest: string)
    requires |epoch| >= 1 && AllDigits(epoch)
    ensures StripEpoch(epoch + ":" + rest) == rest
  {
    var tail := ":" + rest;
    var v := epoch + tail;
    assert v == epoch + ":" + rest;
    assert tail[0] == ':';
    LeadingDigitsOf(epoch, tail);
    assert v[|epoch|] == ':';
    assert v[|epoch| + 1..] == rest;
  }

  lemma {:induction false} LeadingDigitsOf(d: string, rest: string)
    requires AllDigits(d)
    requires rest == [] || !IsDigit(rest[0])
    ensures LeadingDigits(d + rest) == |d|
    decreases |d|
  {
    if d == [] {
      assert d + rest == rest;
    } else {
      assert (d + rest)[1..] == d[1..] + rest;
      LeadingDigitsOf(d[1..], rest);
    }
  }

  /** A version without an epoch is left alone. */
  lemma NoEpochKept(v: string)
    requires v == [] || !IsDigit(v[0]) || NoChar(v, ':')
    ensures StripEpoch(v) == v
  {
  }

  // ---------------------------------------------------------------------
  // The proposed-updates table (init_pu)

  /** A row of the query: package (or source), version, architecture
      (`source` for sources). */
  datatype PuRow = PuRow(pkg: string, version: string, arch: string)

  /** `pu`: package, then architecture, to version. */
  type Pu = map<string, map<string, string>>

  function Lookup(pu: Pu, pkg: string, arch: string): Option<string> {
    if pkg in pu && arch in pu[pkg] then Some(pu[pkg][arch]) else None
  }

  /** One row stored: its package's table is created when missing. */
  function Put(pu: Pu, r: PuRow): Pu {
    var inner := if r.pkg in pu then pu[r.pkg] else map[];
    pu[r.pkg := inner[r.arch := r.version]]
  }

  lemma PutOther(pu: Pu, r: PuRow, pkg: string, arch: string)
    requires r.pkg != pkg || r.arch != arch
    ensures Lookup(Put(pu, r), pkg, arch) == Lookup(pu, pkg, arch)
  {
  }

  /** The table after the rows, stored in order. */
  function Load(pu: Pu, rows: seq<PuRow>): Pu
    decreases |rows|
  {
    if rows == [] then pu else Put(Load(pu, rows[..|rows| - 1]), rows[|rows| - 1])
  }

  /** The last row for a (package, architecture) pair is the one kept. */
  lemma {:induction false} LoadLatest(pu: Pu, rows: seq<PuRow>, i: nat)
    requires i < |rows|
    requires forall j :: i < j < |rows| ==> rows[j].pkg != rows[i].pkg || rows[j].arch != rows[i].arch
    ensures Lookup(Load(pu, rows), rows[i].pkg, rows[i].arch) == Some(rows[i].version)
    decreases |rows|
  {
    var n := |rows| - 1;
    if i < n {
      var init := rows[..n];
      assert init[i] == rows[i];
      assert forall j :: i < j < |init| ==> init[j] == rows[j];
      LoadLatest(pu, init, i);
      PutOther(Load(pu, init), rows[n], rows[i].pkg, rows[i].arch);
    }
  }

  /** A pair no row mentions keeps what the table held. */
  lemma {:induction false} LoadUntouched(pu: Pu, rows: seq<PuRow>, pkg: string, arch: string)
    requires forall j :: 0 <= j < |rows| ==> rows[j].pkg != pkg || rows[j].arch != arch
    ensures Lookup(Load(pu, rows), pkg, arch) == Lookup(pu, pkg, arch)
    decreases |rows|
  {
    if rows != [] {
      var n := |rows| - 1;
      var init := rows[..n];
      assert forall j :: 0 <= j < |init| ==> init[j] == rows[j];
      LoadUntouched(pu, init, pkg, arch);
      PutOther(Load(pu, init), rows[n], pkg, arch);
    }
  }

  /** The packages of the table are those it held and those of the rows. */
  lemma {:induction false} LoadKeys(pu: Pu, rows: seq<PuRow>)
    ensures forall p :: p in Load(pu, rows) <==> p in pu || exists j :: 0 <= j < |rows| && rows[j].pkg == p
    decreases |rows|
  {
    if rows != [] {
      var n := |rows| - 1;
      var init := rows[..n];
      LoadKeys(pu, init);
      assert forall j :: 0 <= j < |init| ==> init[j] == rows[j];
      forall p | exists j :: 0 <= j < |rows| && rows[j].pkg == p
        ensures p in Load(pu, rows)
      {
        var j :| 0 <= j < |rows| && rows[j].pkg == p;
        if j < n {
          assert init[j].pkg == p;
        }
      }
    }
  }

  // ---------------------------------------------------------------------
  // The fate of one file of a .changes file

  /** What the file-name patterns make of a file name: `re_isadeb` with
      the groups of `re_isdeb`; `re_issource` with its extension group
      (`orig.tar.gz`, `diff.gz`, `tar.gz` or `dsc`); neither. */
  datatype Kind =
    | Binary(pkg: string, version: string, arch: string)
    | SourcePart(pkg: string, version: string, ext: string)
    | Unknown

  /** What `check_changes` does with one file. */
  datatype Fate =
    | Unlisted      // package or architecture not in `pu`: warned, kept
    | Current       // same version as in `pu`: kept
    | Superseded    // another version in `pu`: deleted
    | NotCounted    // a source piece other than the .dsc: deleted, uncounted
    | Unrecognised  // neither pattern matches: fatal

  function FateOf(k: Kind, pu: Pu): Fate {
    if k.Unknown? then Unrecognised
    else if k.SourcePart? && k.ext != "dsc" then NotCounted
    else
      var arch := if k.Binary? then k.arch else "source";
      match Lookup(pu, k.pkg, arch)
      case None => Unlisted
      case Some(v) => if StripEpoch(v) == k.version then Current else Superseded
  }

  predicate Retained(f: Fate) {
    f == Unlisted || f == Current
  }

  /** The architecture a file is looked up under: `source` for a .dsc. */
  function ArchOf(k: Kind): string
    requires !k.Unknown?
  {
    if k.Binary? then k.arch else "source"
  }

  /** A binary or .dsc stays exactly when `pu` lacks it or holds its
      version once the epoch is stripped; the other source pieces never
      stay; a name neither pattern knows is fatal. */
  lemma FateKept(k: Kind, pu: Pu)
    ensures FateOf(k, pu) == Unrecognised <==> k.Unknown?
    ensures k.SourcePart? && k.ext != "dsc" ==> FateOf(k, pu) == NotCounted
    ensures !k.Unknown? && !(k.SourcePart? && k.ext != "dsc") ==>
            (Retained(FateOf(k, pu)) <==>
             Lookup(pu, k.pkg, ArchOf(k)).None? || StripEpoch(Lookup(pu, k.pkg, ArchOf(k)).value) == k.version)
    ensures FateOf(k, pu) == Superseded <==>
            !k.Unknown? && !(k.SourcePart? && k.ext != "dsc") && Lookup(pu, k.pkg, ArchOf(k)).Some? &&
            StripEpoch(Lookup(pu, k.pkg, ArchOf(k)).value) != k.version
  {
  }

  // ---------------------------------------------------------------------
  // check_changes

  /** How `check_changes` ends. */
  datatype Outcome =
    | Unreadable   // parse_changes or build_file_list raised: warned
    | UnknownType  // a file neither pattern matches: fubar
    | NoFilesLeft  // every file gone: moved to the morgue
    | LostFiles    // some file superseded, some kept
    | Ok

  /** The files of the `.changes` file, when it can be read and parsed;
      `content` is what reading it yields. */
  function Listing(content: Option<string>, components: set<string>): Option<map<string, FileList.FileEntry>> {
    if content.None? then None
    else match Changes.ParseSpec(content.value, 0)
      case Failure(_) => None
      case Success(changes) =>
        match FileList.FileListSpec(changes, false, components)
        case Failure(_) => None
        case Success(files) => Some(files)
  }

  function Kept(files: set<string>, kind: string -> Kind, pu: Pu): set<string> {
    set f | f in files && Retained(FateOf(kind(f), pu))
  }

  function Replaced(files: set<string>, kind: string -> Kind, pu: Pu): set<string> {
    set f | f in files && FateOf(kind(f), pu) == Superseded
  }

  /** The verdict on a set of file names; it does not depend on the order
      the dictionary yields them in. */
  function Judge(files: set<string>, kind: string -> Kind, pu: Pu): Outcome {
    if exists f :: f in files && FateOf(kind(f), pu) == Unrecognised then UnknownType
    else if Kept(files, kind, pu) == {} then NoFilesLeft
    else if Replaced(files, kind, pu) != {} then LostFiles
    else Ok
  }

  function ChangesSpec(content: Option<string>, components: set<string>, kind: string -> Kind, pu: Pu): Outcome {
    match Listing(content, components)
    case None => Unreadable
    case Some(files) => Judge(files.Keys, kind, pu)
  }

  /** A changes file is only moved when nothing of it is kept, and it
      loses files exactly when something kept sits beside something
      superseded. */
  lemma JudgeCases(files: set<string>, kind: string -> Kind, pu: Pu)
    requires forall f :: f in files ==> FateOf(kind(f), pu) != Unrecognised
    ensures Judge(files, kind, pu) == NoFilesLeft <==>
            forall f :: f in files ==> FateOf(kind(f), pu) in {Superseded, NotCounted}
    ensures Judge(files, kind, pu) == LostFiles <==>
            (exists f :: f in files && Retained(FateOf(kind(f), pu))) &&
            (exists f :: f in files && FateOf(kind(f), pu) == Superseded)
    ensures Judge(files, kind, pu) == Ok <==>
            (exists f :: f in files && Retained(FateOf(kind(f), pu))) &&
            forall f :: f in files ==> FateOf(kind(f), pu) != Superseded
  {
    if Kept(files, kind, pu) == {} {
      forall f | f in files
        ensures FateOf(kind(f), pu) in {Superseded, NotCounted}
      {
        assert f !in Kept(files, kind, pu);
      }
    } else {
      var g :| g in Kept(files, kind, pu);
      assert Retained(FateOf(kind(g), pu));
      if Replaced(files, kind, pu) != {} {
        var h :| h in Replaced(files, kind, pu);
        assert FateOf(kind(h), pu) == Superseded;
      } else {
        forall f | f in files
          ensures FateOf(kind(f), pu) != Superseded
        {
          assert f !in Replaced(files, kind, pu);
        }
      }
    }
  }

  /** The error the code as written raises: `pu_version` is read after
      the loop but set only for files found in `pu`. */
  datatype Raised = PuVersionUnbound

  /** `check_changes` as written: with every file gone and none of them
      looked up in `pu`, the message naming `pu_version` raises before
      the move. */
  function JudgeAsWritten(files: set<string>, kind: string -> Kind, pu: Pu): Result<Outcome, Raised> {
    var o := Judge(files, kind, pu);
    if o == NoFilesLeft && !exists f :: f in files && FateOf(kind(f), pu) in {Current, Superseded} then
      Failure(PuVersionUnbound)
    else Success(o)
  }

  /** The discrepancy: a changes file whose only file is a tarball (or
      that lists no file at all) is never moved. */
  lemma TarballOnly(f: string, kind: string -> Kind, pu: Pu)
    requires kind(f).SourcePart? && kind(f).ext != "dsc"
    ensures JudgeAsWritten({f}, kind, pu) == Failure(PuVersionUnbound)
    ensures JudgeAsWritten({}, kind, pu) == Failure(PuVersionUnbound)
    ensures Judge({f}, kind, pu) == NoFilesLeft
  {
    assert !Retained(FateOf(kind(f), pu));
    assert Kept({f}, kind, pu) == {};
    assert Kept({}, kind, pu) == {};
  }

  /** With a version looked up, the code as written and the corrected one
      agree. */
  lemma AsWrittenAgrees(files: set<string>, kind: string -> Kind, pu: Pu, f: string)
    requires f in files && FateOf(kind(f), pu) in {Current, Superseded}
    ensures JudgeAsWritten(files, kind, pu) == Success(Judge(files, kind, pu))
  {
  }

  // ---------------------------------------------------------------------
  // check_joey

  datatype JoeyError =
    | NotTwoElements(line: string)
    | UnknownInstallType(installType: string, line: string)

  /** What one admin-file line asks for. */
  datatype Action = Skip | Process(changes: string) | Reject(error: JoeyError)

  const InstallTypes := ["install", "install-u", "sync-install"]

  /** One line of the admin file, right-stripped: lines mentioning
      `install` must be an install type and a changes file name. */
  function JoeyAction(raw: string): Action {
    var line := RStrip(raw);
    if !Contains(line, "install") then Skip
    else
      var w := Words(line);
      if |w| != 2 then Reject(NotTwoElements(line))
      else if w[0] !in InstallTypes then Reject(UnknownInstallType(w[0], line))
      else Process(w[1])
  }

  lemma {:induction false} ContainsAfter(p: string, s: string, sub: string)
    requires sub <= s
    ensures Contains(p + s, sub)
    decreases |p|
  {
    if p == [] {
      assert p + s == s;
    } else {
      assert (p + s)[1..] == p[1..] + s;
      ContainsAfter(p[1..], s, sub);
    }
  }

  /** An install line as the release team writes it is processed. */
  lemma InstallLine(t: string, name: string)
    requires t in InstallTypes && IsToken(name)
    ensures JoeyAction(t + " " + name + "\n") == Process(name)
  {
    var line := t + " " + name;
    assert (line + "\n")[..|line + "\n"| - 1] == line;
    assert RStrip(line + "\n") == RStrip(line);
    assert line[|line| - 1] == name[|name| - 1];
    assert RStrip(line) == line;
    if t == "sync-install" {
      assert line == "sync-" + ("install" + " " + name);
      ContainsAfter("sync-", "install" + " " + name, "install");
    } else {
      assert "install" <= line;
    }
    assert IsToken(t);
    WordsJoin([t, name]);
    assert Join(" ", [t, name]) == t + " " + Join(" ", [name]);
  }

  /** What a run over the admin file does: each changes file processed in
      order, until a fatal line or a fatal changes file. */
  datatype Run = Run(outcomes: seq<Outcome>, error: Option<JoeyError>)

  function Prefix(os: seq<Outcome>, r: Run): Run {
    Run(os + r.outcomes, r.error)
  }

  /** The run over the admin file's lines, where `check` gives the
      outcome of checking a changes file of that name. */
  function JoeySpec(lines: seq<string>, check: string -> Outcome): Run
    decreases |lines|
  {
    if lines == [] then Run([], None)
    else match JoeyAction(lines[0])
      case Skip => JoeySpec(lines[1..], check)
      case Reject(e) => Run([], Some(e))
      case Process(name) =>
        if check(name) == UnknownType then Run([UnknownType], None)
        else Prefix([check(name)], JoeySpec(lines[1..], check))
  }

  lemma JoeyStep(lines: seq<string>, k: nat, check: string -> Outcome)
    requires k < |lines|
    ensures JoeySpec(lines[k..], check) ==
            match JoeyAction(lines[k])
            case Skip => JoeySpec(lines[k + 1..], check)
            case Reject(e) => Run([], Some(e))
            case Process(name) =>
              if check(name) == UnknownType then Run([UnknownType], None)
              else Prefix([check(name)], JoeySpec(lines[k + 1..], check))
  {
    assert lines[k..][1..] == lines[k + 1..];
  }

  /** `check_changes` on each named file, against a fixed `pu`. */
  function ChangesCheck(read: string -> Option<string>, components: set<string>, kind: string -> Kind, pu: Pu): string -> Outcome {
    name => ChangesSpec(read(name), components, kind, pu)
  }

  /** At most one changes file per line is checked, a fatal one ends the
      run, and a fatal line ends it before anything fatal was checked. */
  lemma {:induction false} JoeyStops(lines: seq<string>, check: string -> Outcome)
    ensures var r := JoeySpec(lines, check);
      |r.outcomes| <= |lines| &&
      (forall i :: 0 <= i < |r.outcomes| - 1 ==> r.outcomes[i] != UnknownType) &&
      (r.error.Some? ==> forall i :: 0 <= i < |r.outcomes| ==> r.outcomes[i] != UnknownType)
    decreases |lines|
  {
    if lines != [] {
      JoeyStops(lines[1..], check);
      match JoeyAction(lines[0])
      case Skip =>
      case Reject(e) =>
      case Process(name) =>
        if check(name) != UnknownType {
          var rest := JoeySpec(lines[1..], check);
          var os := [check(name)] + rest.outcomes;
          assert forall i :: 1 <= i < |os| ==> os[i] == rest.outcomes[i - 1];
        }
    }
  }

  /** Lines not mentioning `install` are passed over. */
  lemma JoeySkips(line: string, lines: seq<string>, check: string -> Outcome)
    requires !Contains(RStrip(line), "install")
    ensures JoeySpec([line] + lines, check) == JoeySpec(lines, check)
  {
    assert ([line] + lines)[1..] == lines;
  }

  /** The fate of each file name, against a fixed `pu`. */
  function FateFn(kind: string -> Kind, pu: Pu): string -> Fate {
    f => FateOf(kind(f), pu)
  }

  lemma RemoveCard(m: set<string>, x: string)
    requires x in m
    ensures |m - {x}| == |m| - 1
  {
    assert m == (m - {x}) + {x};
  }

  /** One pass of the loop of `check_changes`: how the file is
      classified, looked up in `pu` and compared. */
  method Visit(k: Kind, pu: Pu) returns (f: Fate)
    ensures f == FateOf(k, pu)
  {
    var pkg, version, arch;
    if k.Binary? {
      pkg, version, arch := k.pkg, k.version, k.arch;
    } else if k.SourcePart? {
      if k.ext != "dsc" {
        return NotCounted;
      }
      pkg, version, arch := k.pkg, k.version, "source";
    } else {
      return Unrecognised;
    }
    if pkg !in pu || arch !in pu[pkg] {
      return Unlisted;
    }
    var puVersion := StripEpoch(pu[pkg][arch]);
    if puVersion != version {
      f := Superseded;
    } else {
      f := Current;
    }
  }

  /** The loop of `check_changes` over the parsed `files`, in whatever
      order the dictionary yields them: it stops at an unrecognised name,
      and otherwise leaves the retained files and a count that misses the
      superseded ones. */
  method SweepLoop(files: set<string>, kind: string -> Kind, pu: Pu)
    returns (unknown: bool, left: set<string>, numFiles: int)
    ensures unknown <==> exists f :: f in files && FateFn(kind, pu)(f) == Unrecognised
    ensures !unknown ==> forall f :: f in left <==> f in files && Retained(FateFn(kind, pu)(f))
    ensures !unknown ==> |left| <= numFiles
    ensures !unknown ==> (|left| < numFiles <==> exists f :: f in files && FateFn(kind, pu)(f) == Superseded)
  {
    ghost var fate := FateFn(kind, pu);
    left := files;
    var rest := files;
    numFiles := |files|;
    ghost var superseded: nat := 0;
    while rest != {}
      invariant rest <= files
      invariant forall f :: f in left <==> f in files && (f in rest || Retained(fate(f)))
      invariant forall f :: f in files && f !in rest ==> fate(f) != Unrecognised
      invariant |left| == numFiles - superseded
      invariant superseded == 0 <==> forall f :: f in files && f !in rest ==> fate(f) != Superseded
      decreases |rest|
    {
      var file :| file in rest;
      SweepStep(files, left, rest, file, fate, superseded);
      rest := rest - {file};
      var f := Visit(kind(file), pu);
      if f == Unrecognised {
        return true, left, numFiles;
      } else if f == NotCounted {
        RemoveCard(left, file);
        left := left - {file};
        numFiles := numFiles - 1;
      } else if f == Superseded {
        RemoveCard(left, file);
        left := left - {file};
        superseded := superseded + 1;
      }
    }
    unknown := false;
  }

  /** `check_changes` after parsing: the loop, then the verdict on how
      many files are left. */
  method Sweep(files: map<string, FileList.FileEntry>, kind: string -> Kind, pu: Pu)
    returns (outcome: Outcome, kept: set<string>)
    ensures outcome == Judge(files.Keys, kind, pu)
    ensures outcome != UnknownType ==> kept == Kept(files.Keys, kind, pu)
  {
    var unknown, left, numFiles := SweepLoop(files.Keys, kind, pu);
    if unknown {
      return UnknownType, {};
    }
    SweepDone(files.Keys, left, kind, pu, numFiles);
    var newNumFiles := |left|;
    if newNumFiles == 0 {
      outcome := NoFilesLeft;
    } else if newNumFiles < numFiles {
      outcome := LostFiles;
    } else {
      outcome := Ok;
    }
    kept := left;
  }

  /** Visiting `file` deletes it unless it is retained, and counts it
      when it is superseded. */
  lemma SweepStep(all: set<string>, files: set<string>, rest: set<string>,
                  file: string, fate: string -> Fate, superseded: nat)
    requires file in rest
    requires forall f :: f in files <==> f in all && (f in rest || Retained(fate(f)))
    requires superseded == 0 <==> forall f :: f in all && f !in rest ==> fate(f) != Superseded
    ensures var left := if Retained(fate(file)) then files else files - {file};
      forall f :: f in left <==> f in all && (f in rest - {file} || Retained(fate(f)))
    ensures var n := if fate(file) == Superseded then superseded + 1 else superseded;
      file in all ==>
      (n == 0 <==> forall f :: f in all && f !in rest - {file} ==> fate(f) != Superseded)
  {
  }

  /** Once every name was visited, what the loop leaves is what `Kept`
      keeps, and the verdict follows from how many are left. */
  lemma SweepDone(all: set<string>, left: set<string>,
                  kind: string -> Kind, pu: Pu, numFiles: int)
    requires forall f :: f in left <==> f in all && Retained(FateFn(kind, pu)(f))
    requires forall f :: f in all ==> FateFn(kind, pu)(f) != Unrecognised
    requires |left| <= numFiles
    requires |left| < numFiles <==> exists f :: f in all && FateFn(kind, pu)(f) == Superseded
    ensures left == Kept(all, kind, pu)
    ensures Judge(all, kind, pu) ==
            if |left| == 0 then NoFilesLeft else if |left| < numFiles then LostFiles else Ok
  {
    assert left == Kept(all, kind, pu);
    if |left| < numFiles {
      var f :| f in all && FateFn(kind, pu)(f) == Superseded;
      assert f in Replaced(all, kind, pu);
    } else {
      assert Replaced(all, kind, pu) == {};
    }
  }



  /** `check_changes`: drop the superseded files and the source pieces
      other than the .dsc, then compare what is left with what was
      counted. `kept` is what remains of `files`. The module-level `pu`
      is only read here, so it is a parameter. */
  method CheckChanges(content: Option<string>, components: set<string>, kind: string -> Kind, pu: Pu)
    returns (outcome: Outcome, kept: set<string>)
    ensures outcome == ChangesSpec(content, components, kind, pu)
    ensures outcome != Unreadable && outcome != UnknownType ==>
            kept == Kept(Listing(content, components).value.Keys, kind, pu)
  {
    if content.None? {
      return Unreadable, {};
    }
    var changes := Changes.ParseChanges(content.value, 0);
    if changes.Failure? {
      return Unreadable, {};
    }
    var built := FileList.BuildFileList(changes.value, false, components);
    if built.Failure? {
      return Unreadable, {};
    }
    assert Listing(content, components) == Some(built.value);
    outcome, kept := Sweep(built.value, kind, pu);
  }

  /** `check_joey`: each install line's changes file is checked in turn;
      `read` gives what reading a file name yields. */
  method CheckJoey(text: string, read: string -> Option<string>, components: set<string>, kind: string -> Kind, pu: Pu)
    returns (outcomes: seq<Outcome>, error: Option<JoeyError>)
    ensures Run(outcomes, error) == JoeySpec(Lines(text), ChangesCheck(read, components, kind, pu))
  {
    var lines := Lines(text);
    ghost var check := ChangesCheck(read, components, kind, pu);
    outcomes := [];
    var k := 0;
    while k < |lines|
      invariant 0 <= k <= |lines|
      invariant JoeySpec(lines, check) == Prefix(outcomes, JoeySpec(lines[k..], check))
    {
      JoeyStep(lines, k, check);
      var line := RStrip(lines[k]);
      if Contains(line, "install") {
        var splitLine := Words(line);
        if |splitLine| != 2 {
          return outcomes, Some(NotTwoElements(line));
        }
        var installType := splitLine[0];
        if installType !in InstallTypes {
          return outcomes, Some(UnknownInstallType(installType, line));
        }
        var o, _ := CheckChanges(read(splitLine[1]), components, kind, pu);
        assert o == check(splitLine[1]);
        if o == UnknownType {
          return outcomes + [o], None;
        }
        ghost var rest := JoeySpec(lines[k + 1..], check);
        assert outcomes + ([o] + rest.outcomes) == (outcomes + [o]) + rest.outcomes;
        outcomes := outcomes + [o];
      }
      k := k + 1;
    }
    assert outcomes + [] == outcomes;
    return outcomes, None;
  }

  // ---------------------------------------------------------------------
  // The cleaner

  /** The module-level state `init_pu` fills in. */
  class Cleaner {
    /** The module-level `pu` dictionary. */
    var pu: Pu

    constructor()
      ensures pu == map[]
    {
      pu := map[];
    }

    /** `init_pu`: store every row of the query, in order. */
    method InitPu(rows: seq<PuRow>)
      modifies this
      ensures pu == Load(old(pu), rows)
    {
      for i := 0 to |rows|
        invariant pu == Load(old(pu), rows[..i])
      {
        assert rows[..i + 1][..i] == rows[..i];
        var r := rows[i];
        if r.pkg !in pu {
          pu := pu[r.pkg := map[]];
        }
        pu := pu[r.pkg := pu[r.pkg][r.arch := r.version]];
      }
      assert rows[..|rows|] == rows;
    }

  }
}
