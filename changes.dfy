/** `parse_changes` (dak/lib/utils.py): reading a Debian control-format
    `.changes` or `.dsc` file, optionally inside the OpenPGP cleartext
    signature framing of section 7 of RFC 4880, into a map from lower-cased
    field names to values.

    `signing_rules` selects the framing: -1 reads every line, 0 (the
    default) reads only the signed section, 1 also enforces the layout
    dpkg-source demands (the armour header closed by a blank line, the data
    closed by a blank line directly followed by the signature). */
module Changes {
  import opened Results
  import opened Text

  const SignatureStart := "-----BEGIN PGP SIGNATURE"
  const SignedStart := "-----BEGIN PGP SIGNED MESSAGE"

  /** The armour line that ends the signed data: `line.startswith(...)`. */
  predicate IsSignature(line: string) {
    SignatureStart <= line
  }

  /** The armour line that opens the signed section. */
  predicate IsSigned(line: string) {
    SignedStart <= line
  }

  /** Everything `parse_changes` raises. `FieldUnbound` is the NameError of
      a `" ."` line before any field; `InvalidDsc` carries the 1-based line
      index the exception is raised with. */
  datatype ChangesError =
    | EmptyFile
    | InvalidDsc(index: int)
    | ContinuationWithoutField(line: string)
    | FieldUnbound
    | Unparsable(text: string)

  // ---------------------------------------------------------------------
  // The two line patterns

  /** What `.*` matches: everything up to the first newline. */
  function RestOfLine(s: string): string
    decreases |s|
  {
    if s == [] || s[0] == '\n' then [] else [s[0]] + RestOfLine(s[1..])
  }

  lemma {:induction false} RestOfLineFree(s: string)
    requires NoChar(s, '\n')
    ensures RestOfLine(s) == s
    decreases |s|
  {
    if s != [] {
      RestOfLineFree(s[1..]);
    }
  }

  /** `re_single_line_field`, `^(\S*)\s*:\s*(.*)`, with the regex
      engine's backtracking written out: the name is the whole leading run
      of non-whitespace when a colon follows it (after optional
      whitespace), otherwise that run up to its last colon; the value is
      what follows the colon, leading whitespace dropped. */
  function FieldLine(line: string): Option<(string, string)> {
    FieldFrom(line, 0, None)
  }

  /** The scan behind `FieldLine`: `line[..i]` is free of whitespace and
      `colon` is the position of its last colon. */
  function FieldFrom(line: string, i: nat, colon: Option<nat>): Option<(string, string)>
    requires i <= |line| && (colon.Some? ==> colon.value < i)
    decreases |line| - i
  {
    if i < |line| && !IsSpace(line[i]) then
      FieldFrom(line, i + 1, if line[i] == ':' then Some(i) else colon)
    else
      var after := LStrip(line[i..]);
      if after != [] && after[0] == ':' then Some((line[..i], RestOfLine(LStrip(after[1..]))))
      else if colon.Some? then Some((line[..colon.value], RestOfLine(LStrip(line[colon.value + 1..]))))
      else None
  }

  /** `re_multi_line_field`, `^\s(.*)`: a line starting with whitespace,
      with that character removed. */
  function Continuation(line: string): Option<string> {
    if line != [] && IsSpace(line[0]) then Some(RestOfLine(line[1..])) else None
  }

  /** The usual shape `Name: value` (any whitespace around the colon, at
      least one blank after it) yields that name and value. */
  lemma {:induction false} FieldLineSpaced(name: string, sp: string, sp2: string, value: string)
    requires forall i :: 0 <= i < |name| ==> !IsSpace(name[i]) && name[i] != ':'
    requires AllSpace(sp) && AllSpace(sp2) && |sp2| >= 1
    requires NoChar(value, '\n')
    requires value == [] || (!IsSpace(value[0]) && value[0] != ':')
    ensures FieldLine(name + sp + ":" + sp2 + value) == Some((name, value))
  {
    var tail := sp2 + value;
    var line := name + sp + ":" + sp2 + value;
    assert LStrip(tail) == value by {
      LStripSpaces(sp2, value);
    }
    RestOfLineFree(value);
    assert line == name + (sp + ([':'] + tail));
    ScanName(line, name, 0);
    assert line[..|name|] == name;
    if sp != [] {
      assert line[|name|..] == sp + ([':'] + tail);
      LStripSpaces(sp, [':'] + tail);
      assert ([':'] + tail)[1..] == tail;
    } else {
      assert line[|name|] == ':' && line[|name| + 1..] == tail;
      assert FieldFrom(line, |name| + 1, Some(|name|)) == Some((name, value)) by {
        assert IsSpace(line[|name| + 1]);
        assert line[|name| + 1..] == tail;
      }
    }
  }

  /** Scanning through a name free of whitespace and colons changes nothing. */
  lemma {:induction false} ScanName(line: string, name: string, i: nat)
    requires name <= line && i <= |name|
    requires forall k :: 0 <= k < |name| ==> !IsSpace(name[k]) && name[k] != ':'
    ensures FieldFrom(line, i, None) == FieldFrom(line, |name|, None)
    decreases |name| - i
  {
    if i < |name| {
      assert line[i] == name[i];
      ScanName(line, name, i + 1);
    }
  }

  // ---------------------------------------------------------------------
  // The loop

  /** The loop's variables: `index` (lines consumed so far),
      `inside_signature`, `first` (-1 before any field, 1 right after a
      single-line field, 0 inside a continuation), the current `field`
      (None while unbound), the `changes` dict and the `error`
      accumulator. */
  datatype Scan = Scan(index: nat, inside: bool, first: int, field: Option<string>,
                       changes: map<string, string>, error: string)

  const Start := Scan(0, false, -1, None, map[], "")

  /** What the loop keeps true: a bound field is a key of `changes`, and
      `first` is -1 exactly while no field is bound. */
  predicate Good(s: Scan) {
    (s.field.Some? ==> s.field.value in s.changes) &&
    (s.first == -1 <==> s.field.None?) &&
    (s.first == -1 || s.first == 0 || s.first == 1)
  }

  predicate LowerKeys(m: map<string, string>) {
    forall k :: k in m ==> NoUpper(k)
  }

  /** The outcome of one iteration: go on, leave the loop, or raise. */
  datatype Step = Go(next: Scan) | Stop(last: Scan) | Crash(error: ChangesError)

  /** The dpkg-source header rule: after the `SIGNED MESSAGE` line (the
      `index`-th), skip up to the next blank line or the end. */
  function SkipHeader(L: seq<string>, index: nat): (r: nat)
    requires 1 <= index <= |L|
    ensures index <= r <= |L|
    ensures r < |L| ==> L[r - 1] == ""
    decreases |L| - index
  {
    if index < |L| && L[index - 1] != "" then SkipHeader(L, index + 1) else index
  }

  /** What a line inside the processed part does to the scan: a field
      line binds its lower-cased name, `" ."` appends a newline, a
      continuation line appends its text and a newline (a newline first
      after a non-empty single-line value), anything else is kept for the
      error message. */
  function Absorb(line: string, s: Scan): (r: Result<Scan, ChangesError>)
    requires Good(s) && line != ""
    ensures r.Success? ==> (Good(r.value) && s.error <= r.value.error &&
      r.value.index == s.index && r.value.inside == s.inside &&
      (LowerKeys(s.changes) ==> LowerKeys(r.value.changes)))
    ensures r.Failure? ==> r.error.ContinuationWithoutField? || r.error.FieldUnbound?
    ensures r.Success? && r.value.error != s.error ==>
      (r.value.error == s.error + line && FieldLine(line).None? && line != " ." && Continuation(line).None?)
  {
    match FieldLine(line)
    case Some(nv) =>
      var f := Lower(nv.0);
      LowerNoUpper(nv.0);
      Success(s.(field := Some(f), changes := s.changes[f := nv.1], first := 1))
    case None =>
      if line == " ." then
        if s.field.None? then Failure(FieldUnbound)
        else
          var f := s.field.value;
          Success(s.(changes := s.changes[f := s.changes[f] + "\n"]))
      else match Continuation(line)
        case Some(c) =>
          if s.first == -1 then Failure(ContinuationWithoutField(line))
          else
            var f := s.field.value;
            var v := if s.first == 1 && s.changes[f] != "" then s.changes[f] + "\n" else s.changes[f];
            Success(s.(changes := s.changes[f := v + c + "\n"], first := 0))
        case None =>
          Success(s.(error := s.error + line))
  }

  /** One iteration of the `while index < num_of_lines` loop over the
      lines `L` (each with its last character removed). */
  function Next(L: seq<string>, rules: int, s: Scan): (r: Step)
    requires Good(s) && s.index < |L|
    ensures r.Go? ==> (s.index < r.next.index <= |L| && Good(r.next) && s.error <= r.next.error &&
      (LowerKeys(s.changes) ==> LowerKeys(r.next.changes)))
    ensures r.Stop? ==> (s.index < r.last.index <= |L| && Good(r.last) && s.error <= r.last.error &&
      (LowerKeys(s.changes) ==> LowerKeys(r.last.changes)))
    ensures r.Crash? ==> !r.error.EmptyFile?
  {
    var index := s.index + 1;
    var line := L[index - 1];
    if line == "" then
      if rules == 1 then
        if index + 1 > |L| then Crash(InvalidDsc(index + 1))
        else if !IsSignature(L[index]) then Crash(InvalidDsc(index + 1))
        else Stop(s.(index := index + 1, inside := false))
      else Go(s.(index := index))
    else if IsSignature(line) then Stop(s.(index := index))
    else if IsSigned(line) then
      Go(s.(index := if rules == 1 then SkipHeader(L, index) else index, inside := true))
    else if rules >= 0 && !s.inside then Go(s.(index := index))
    else match Absorb(line, s.(index := index))
      case Success(t) => Go(t)
      case Failure(e) => Crash(e)
  }

  /** The whole loop from scan `s`: the scan it leaves with, or what it
      raises. */
  function Run(L: seq<string>, rules: int, s: Scan): (r: Result<Scan, ChangesError>)
    requires Good(s) && s.index <= |L|
    ensures r.Success? ==> (Good(r.value) && s.index <= r.value.index <= |L| &&
      s.error <= r.value.error && (LowerKeys(s.changes) ==> LowerKeys(r.value.changes)))
    ensures r.Failure? ==> !r.error.EmptyFile?
    decreases |L| - s.index
  {
    if s.index >= |L| then Success(s)
    else match Next(L, rules, s)
      case Go(t) => Run(L, rules, t)
      case Stop(t) => Success(t)
      case Crash(e) => Failure(e)
  }

  /** `line[:-1]` of every line `readlines` returns: the last character
      goes, newline or not. */
  function Chop(line: string): string {
    if line == [] then [] else line[..|line| - 1]
  }

  function Indexed(lines: seq<string>): (L: seq<string>)
    ensures |L| == |lines| && forall k :: 0 <= k < |lines| ==> L[k] == Chop(lines[k])
  {
    seq(|lines|, k requires 0 <= k < |lines| => Chop(lines[k]))
  }

  /** What `parse_changes` returns for the file text `content` under
      `signing_rules == rules`. */
  function ParseSpec(content: string, rules: int): (r: Result<map<string, string>, ChangesError>)
    ensures r == Failure(EmptyFile) <==> content == ""
    ensures r.Success? ==> "filecontents" in r.value && r.value["filecontents"] == content
  {
    var lines := Lines(content);
    if lines == [] then Failure(EmptyFile)
    else match Run(Indexed(lines), rules, Start)
      case Failure(e) => Failure(e)
      case Success(t) =>
        if rules == 1 && t.inside then Failure(InvalidDsc(t.index))
        else if t.error != "" then Failure(Unparsable(t.error))
        else Success(t.changes["filecontents" := Concat(lines)])
  }

  /** `[line[:-1] for line in lines]`, as the loop reads them. */
  method ChopAll(lines: seq<string>) returns (L: seq<string>)
    ensures L == Indexed(lines)
  {
    L := [];
    var k := 0;
    while k < |lines|
      invariant 0 <= k <= |lines| && |L| == k
      invariant forall j :: 0 <= j < k ==> L[j] == Chop(lines[j])
    {
      L := L + [Chop(lines[k])];
      k := k + 1;
    }
  }

  /** The inner loop of the dpkg-source rules, skipping the armour
      header up to its closing blank line. */
  method SkipArmourHeader(L: seq<string>, index: nat) returns (r: nat)
    requires 1 <= index <= |L|
    ensures r == SkipHeader(L, index)
  {
    r := index;
    var line := L[r - 1];
    while r < |L| && line != ""
      invariant index <= r <= |L| && line == L[r - 1]
      invariant SkipHeader(L, r) == SkipHeader(L, index)
      decreases |L| - r
    {
      r := r + 1;
      line := L[r - 1];
    }
  }

  /** The body of the loop for a line of the processed part. */
  method AbsorbLine(line: string, s: Scan) returns (r: Result<Scan, ChangesError>)
    requires Good(s) && line != ""
    ensures r == Absorb(line, s)
  {
    var field, first, changes, error := s.field, s.first, s.changes, s.error;
    var slf := FieldLine(line);
    if slf.Some? {
      field := Some(Lower(slf.value.0));
      changes := changes[field.value := slf.value.1];
      first := 1;
      return Success(s.(field := field, changes := changes, first := first));
    }
    if line == " ." {
      if field.None? {
        return Failure(FieldUnbound);
      }
      changes := changes[field.value := changes[field.value] + "\n"];
      return Success(s.(changes := changes));
    }
    var mlf := Continuation(line);
    if mlf.Some? {
      if first == -1 {
        return Failure(ContinuationWithoutField(line));
      }
      ghost var v := if first == 1 && changes[field.value] != "" then changes[field.value] + "\n" else changes[field.value];
      if first == 1 && changes[field.value] != "" {
        changes := changes[field.value := changes[field.value] + "\n"];
      }
      assert changes == s.changes[field.value := v];
      first := 0;
      changes := changes[field.value := changes[field.value] + mlf.value + "\n"];
      assert changes == s.changes[field.value := v + mlf.value + "\n"];
      return Success(s.(changes := changes, first := first));
    }
    error := error + line;
    return Success(s.(error := error));
  }

  /** `parse_changes(filename, signing_rules)` on the file's text. */
  method ParseChanges(content: string, signingRules: int) returns (r: Result<map<string, string>, ChangesError>)
    ensures r == ParseSpec(content, signingRules)
  {
    var lines := Lines(content);
    if |lines| == 0 {
      return Failure(EmptyFile);
    }
    var L := ChopAll(lines);
    var run := ScanLines(L, signingRules);
    if run.Failure? {
      return Failure(run.error);
    }
    var t := run.value;
    if signingRules == 1 && t.inside {
      return Failure(InvalidDsc(t.index));
    }
    var changes := t.changes["filecontents" := Concat(lines)];
    if t.error != "" {
      return Failure(Unparsable(t.error));
    }
    return Success(changes);
  }

  /** The `while index < num_of_lines` loop of `parse_changes` over the
      chopped lines `L`: the loop variables it leaves with, or what it
      raises. */
  method ScanLines(L: seq<string>, rules: int) returns (r: Result<Scan, ChangesError>)
    ensures r == Run(L, rules, Start)
  {
    var s := Start;
    while s.index < |L|
      invariant Good(s) && s.index <= |L|
      invariant Run(L, rules, s) == Run(L, rules, Start)
      decreases |L| - s.index
    {
      var step := LoopBody(L, rules, s);
      match step
      case Go(t) =>
        s := t;
      case Stop(t) =>
        return Success(t);
      case Crash(e) =>
        return Failure(e);
    }
    return Success(s);
  }

  /** One pass through the body of that loop: `Go` for `continue`, `Stop`
      for `break`, `Crash` for a raise. */
  method LoopBody(L: seq<string>, rules: int, s: Scan) returns (r: Step)
    requires Good(s) && s.index < |L|
    ensures r == Next(L, rules, s)
  {
    var index := s.index + 1;
    var line := L[index - 1];
    if line == "" {
      if rules == 1 {
        index := index + 1;
        if index > |L| {
          return Crash(InvalidDsc(index));
        }
        line := L[index - 1];
        if !IsSignature(line) {
          return Crash(InvalidDsc(index));
        }
        return Stop(s.(index := index, inside := false));
      }
      return Go(s.(index := index));
    }
    if IsSignature(line) {
      return Stop(s.(index := index));
    }
    if IsSigned(line) {
      if rules == 1 {
        index := SkipArmourHeader(L, index);
      }
      return Go(s.(index := index, inside := true));
    }
    if rules >= 0 && !s.inside {
      return Go(s.(index := index));
    }
    var absorbed := AbsorbLine(line, s.(index := index));
    if absorbed.Failure? {
      return Crash(absorbed.error);
    }
    return Go(absorbed.value);
  }

  // ---------------------------------------------------------------------
  // Properties

  /** Every key of the returned dict is lower case. */
  lemma {:induction false} ParseSpecLowerKeys(content: string, rules: int)
    ensures ParseSpec(content, rules).Success? ==> LowerKeys(ParseSpec(content, rules).value)
  {
    assert NoUpper("filecontents");
  }

  /** The two armour lines can never be confused. */
  lemma {:induction false} SignatureNotSigned(line: string)
    ensures IsSignature(line) ==> !IsSigned(line)
  {
    if IsSignature(line) {
      assert line[19] == SignatureStart[19] == 'A';
      assert SignedStart[19] == 'E';
    }
  }

  /** A line the parser knows what to do with. */
  predicate Recognized(line: string) {
    line == "" || IsSignature(line) || IsSigned(line) ||
    FieldLine(line).Some? || line == " ." || Continuation(line).Some?
  }

  /** Without signature rules, one error-free iteration reads one line,
      which it recognizes. */
  lemma {:induction false} NextRecognized(L: seq<string>, s: Scan)
    requires Good(s) && s.index < |L|
    ensures Next(L, -1, s).Go? && Next(L, -1, s).next.error == "" ==>
      Recognized(L[s.index]) && Next(L, -1, s).next.index == s.index + 1
    ensures Next(L, -1, s).Stop? ==>
      IsSignature(L[s.index]) && Next(L, -1, s).last.index == s.index + 1
  {
  }

  /** Without signature rules, an error-free run has recognized every line
      it read, and it read up to the end or to a signature line. */
  lemma {:induction false} RunRecognized(L: seq<string>, s: Scan)
    requires Good(s) && s.index <= |L|
    ensures Run(L, -1, s).Success? && Run(L, -1, s).value.error == "" ==>
      (forall k :: s.index <= k < Run(L, -1, s).value.index ==> Recognized(L[k])) &&
      (Run(L, -1, s).value.index == |L| || IsSignature(L[Run(L, -1, s).value.index - 1]))
    decreases |L| - s.index
  {
    if s.index < |L| {
      NextRecognized(L, s);
      match Next(L, -1, s)
      case Go(t) =>
        RunRecognized(L, t);
      case Stop(t) =>
      case Crash(e) =>
    }
  }

  /** Without signature rules a successful parse has recognized every line
      up to the first signature line: any other line makes it fail. */
  lemma {:induction false} UnsignedLinesRecognized(content: string)
    ensures ParseSpec(content, -1).Success? ==>
      forall k :: 0 <= k < |Indexed(Lines(content))| && BeforeSignature(Indexed(Lines(content)), k) ==>
        Recognized(Indexed(Lines(content))[k])
  {
    var L := Indexed(Lines(content));
    if ParseSpec(content, -1).Success? {
      RunRecognized(L, Start);
      var t := Run(L, -1, Start).value;
      assert t.index == |L| || IsSignature(L[t.index - 1]);
      forall k | 0 <= k < |L| && BeforeSignature(L, k)
        ensures Recognized(L[k])
      {
        assert k < t.index;
      }
    }
  }

  /** No line before the `k`-th is a signature line. */
  predicate BeforeSignature(L: seq<string>, k: int) {
    forall j :: 0 <= j < k && j < |L| ==> !IsSignature(L[j])
  }

  /** Outside the signed section, under rules 0 (or more, other than 1),
      an iteration on a line that does not open the section reads past it
      and changes nothing else, or stops at a signature line. */
  lemma {:induction false} NextOutside(L: seq<string>, rules: int, s: Scan)
    requires rules >= 0 && rules != 1
    requires Good(s) && s.index < |L| && !s.inside
    requires !IsSigned(L[s.index])
    ensures Next(L, rules, s) == Go(s.(index := s.index + 1)) || Next(L, rules, s) == Stop(s.(index := s.index + 1))
  {
  }

  /** With `signing_rules` 0 (or more, other than 1), a run outside the
      signed section that never meets its start line takes nothing in. */
  lemma {:induction false} RunOutside(L: seq<string>, rules: int, s: Scan)
    requires rules >= 0 && rules != 1
    requires Good(s) && s.index <= |L| && !s.inside
    requires forall k :: s.index <= k < |L| ==> !IsSigned(L[k])
    ensures Run(L, rules, s).Success?
    ensures Run(L, rules, s).value.changes == s.changes && Run(L, rules, s).value.error == s.error
    ensures !Run(L, rules, s).value.inside
    decreases |L| - s.index
  {
    if s.index < |L| {
      NextOutside(L, rules, s);
      if Next(L, rules, s).Go? {
        RunOutside(L, rules, s.(index := s.index + 1));
      }
    }
  }

  /** A file with no signed section reads, under the default rules, as no
      fields at all. */
  lemma {:induction false} UnsignedFileIgnored(content: string)
    requires content != ""
    requires forall k :: 0 <= k < |Indexed(Lines(content))| ==> !IsSigned(Indexed(Lines(content))[k])
    ensures ParseSpec(content, 0) == Success(map["filecontents" := content])
  {
    RunOutside(Indexed(Lines(content)), 0, Start);
  }

  /** Except in strict mode, nothing after the first signature line is
      read: lines appended after it change nothing. */
  lemma {:induction false} StopsAtSignature(P: seq<string>, sig: string, Q: seq<string>, rules: int, s: Scan)
    requires rules != 1 && IsSignature(sig)
    requires Good(s) && s.index <= |P|
    ensures Run(P + [sig] + Q, rules, s) == Run(P + [sig], rules, s)
    decreases |P| - s.index
  {
    var L1 := P + [sig] + Q;
    var L2 := P + [sig];
    assert L1[s.index] == L2[s.index];
    if s.index < |P| {
      NextSameLine(L1, L2, rules, s);
      match Next(L2, rules, s)
      case Go(t) =>
        StopsAtSignature(P, sig, Q, rules, t);
      case Stop(t) =>
      case Crash(e) =>
    } else {
      assert L1[s.index] == sig;
    }
  }

  /** Away from strict mode an iteration reads only the current line. */
  lemma {:induction false} NextSameLine(L1: seq<string>, L2: seq<string>, rules: int, s: Scan)
    requires rules != 1 && Good(s) && s.index < |L1| && s.index < |L2|
    requires L1[s.index] == L2[s.index] && s.index + 1 <= |L2| && s.index + 1 <= |L1|
    ensures Next(L1, rules, s) == Next(L2, rules, s)
  {
  }

  /** One strict iteration that goes on: it reads a blank line only when
      that line does not end the data, enters the signed section at its
      opening line, keeps the inside flag otherwise, and outside the
      section reads one line. */
  lemma {:induction false} NextStrict(L: seq<string>, s: Scan)
    requires Good(s) && s.index < |L|
    ensures Next(L, 1, s).Go? ==> L[s.index] != ""
    ensures Next(L, 1, s).Go? && IsSigned(L[s.index]) ==> Next(L, 1, s).next.inside
    ensures Next(L, 1, s).Go? && !IsSigned(L[s.index]) ==>
      Next(L, 1, s).next.inside == s.inside && (s.inside || Next(L, 1, s).next.index == s.index + 1)
    ensures Next(L, 1, s).Stop? && !Next(L, 1, s).last.inside ==>
      (2 <= Next(L, 1, s).last.index && L[Next(L, 1, s).last.index - 2] == "" &&
        IsSignature(L[Next(L, 1, s).last.index - 1])) ||
      (!s.inside && Next(L, 1, s).last.index == s.index + 1 && !IsSigned(L[s.index]))
  {
    SignatureNotSigned(L[s.index]);
  }

  /** The strict ending: when a strict run leaves the loop outside the
      signed section, it either ended at a blank line directly followed by
      the signature line, or it never saw a signed section at all. */
  lemma {:induction false} StrictEnding(L: seq<string>, s: Scan)
    requires Good(s) && s.index <= |L|
    ensures Run(L, 1, s).Success? && !Run(L, 1, s).value.inside ==>
      (2 <= Run(L, 1, s).value.index && L[Run(L, 1, s).value.index - 2] == "" &&
        IsSignature(L[Run(L, 1, s).value.index - 1])) ||
      (!s.inside && NoneSigned(L, s.index, Run(L, 1, s).value.index))
    decreases |L| - s.index
  {
    if s.index < |L| {
      NextStrict(L, s);
      match Next(L, 1, s)
      case Go(t) =>
        StrictEnding(L, t);
        if Run(L, 1, t).Success? && !Run(L, 1, t).value.inside {
          StrictEndingStep(L, s, t, Run(L, 1, t).value.index);
        }
      case Stop(t) =>
      case Crash(e) =>
    }
  }

  /** The step behind `StrictEnding`: an ending reached from `t` is also
      reached from the scan `s` one strict iteration before it. */
  lemma StrictEndingStep(L: seq<string>, s: Scan, t: Scan, e: nat)
    requires s.index < t.index <= e <= |L|
    requires IsSigned(L[s.index]) ==> t.inside
    requires !IsSigned(L[s.index]) ==> t.inside == s.inside && (t.index == s.index + 1 || s.inside)
    requires (2 <= e && L[e - 2] == "" && IsSignature(L[e - 1])) || (!t.inside && NoneSigned(L, t.index, e))
    ensures (2 <= e && L[e - 2] == "" && IsSignature(L[e - 1])) || (!s.inside && NoneSigned(L, s.index, e))
  {
  }

  /** No line from the `i`-th up to the `j`-th (excluded) opens the
      signed section. */
  predicate NoneSigned(L: seq<string>, i: nat, j: nat)
    requires j <= |L|
    decreases j - i
  {
    i >= j || (!IsSigned(L[i]) && NoneSigned(L, i + 1, j))
  }

  lemma {:induction false} NoneSignedAll(L: seq<string>, i: nat, j: nat)
    requires j <= |L|
    ensures NoneSigned(L, i, j) <==> forall k :: i <= k < j ==> !IsSigned(L[k])
    decreases j - i
  {
    if i < j {
      NoneSignedAll(L, i + 1, j);
    }
  }

  /** In strict mode, once the signed section has opened (or is still
      to open at line `j`) and no signature line follows, the loop cannot
      leave the signed section. */
  lemma {:induction false} StrictStaysInside(L: seq<string>, s: Scan, j: nat)
    requires Good(s) && s.index <= |L|
    requires forall k :: s.index <= k < |L| ==> !IsSignature(L[k])
    requires s.inside || (s.index <= j < |L| && IsSigned(L[j]))
    ensures Run(L, 1, s).Success? ==> Run(L, 1, s).value.inside
    decreases |L| - s.index
  {
    if s.index < |L| {
      NextStrict(L, s);
      match Next(L, 1, s)
      case Go(t) =>
        if !t.inside {
          assert !s.inside && !IsSigned(L[s.index]) && t.index == s.index + 1;
          assert j != s.index;
        }
        StrictStaysInside(L, t, j);
      case Stop(t) =>
        assert false;
      case Crash(e) =>
    }
  }

  /** A strict file with a signed section but no signature line is always
      refused. */
  lemma {:induction false} StrictUnclosed(content: string, j: nat)
    requires forall k :: 0 <= k < |Indexed(Lines(content))| ==> !IsSignature(Indexed(Lines(content))[k])
    requires j < |Indexed(Lines(content))| && IsSigned(Indexed(Lines(content))[j])
    ensures ParseSpec(content, 1).Failure?
  {
    StrictStaysInside(Indexed(Lines(content)), Start, j);
  }

  /** The value a field line and its continuation lines build:
      the first value, a newline when it was not empty, then each
      continuation's text closed by a newline. */
  function Folded(v: string, conts: seq<string>): string {
    (if v != "" && conts != [] then v + "\n" else v) + Continued(conts)
  }

  function Continued(conts: seq<string>): string
    decreases |conts|
  {
    if conts == [] then ""
    else (if conts[0] == [] then "" else RestOfLine(conts[0][1..])) + "\n" + Continued(conts[1..])
  }

  /** A plain continuation line: leading whitespace, not `" ."`, and not
      itself a field line. */
  predicate PlainContinuation(line: string) {
    line != [] && IsSpace(line[0]) && line != " ." && FieldLine(line).None?
  }

  /** Every line of `L` from the `i`-th on is a plain continuation line. */
  predicate AllPlain(L: seq<string>, i: nat)
    decreases |L| - i
  {
    i >= |L| || (PlainContinuation(L[i]) && AllPlain(L, i + 1))
  }

  /** The `k` lines of `L` from the `i`-th on are plain continuation lines. */
  predicate PlainLines(L: seq<string>, i: nat, k: nat)
    requires i + k <= |L|
    decreases k
  {
    k == 0 || (PlainContinuation(L[i]) && PlainLines(L, i + 1, k - 1))
  }

  /** Where lines are processed (no signature rules, or inside the signed
      part), one iteration on a plain continuation line appends its text
      to the bound field. */
  lemma {:induction false} NextContinuation(L: seq<string>, rules: int, s: Scan)
    requires Good(s) && s.index < |L| && s.field.Some? && (rules < 0 || s.inside)
    requires PlainContinuation(L[s.index])
    ensures var f := s.field.value;
      var v := if s.first == 1 && s.changes[f] != "" then s.changes[f] + "\n" else s.changes[f];
      Next(L, rules, s) ==
        Go(s.(index := s.index + 1, changes := s.changes[f := v + RestOfLine(L[s.index][1..]) + "\n"], first := 0))
  {
    var line := L[s.index];
    assert !IsSignature(line) && !IsSigned(line) by {
      assert IsSpace(line[0]);
    }
  }

  /** One continuation line, run through the whole loop. */
  lemma {:induction false} ContinuationStep(L: seq<string>, rules: int, s: Scan)
    requires Good(s) && s.index < |L| && s.field.Some? && (rules < 0 || s.inside)
    requires PlainContinuation(L[s.index])
    ensures var f := s.field.value;
      var v := if s.first == 1 && s.changes[f] != "" then s.changes[f] + "\n" else s.changes[f];
      Run(L, rules, s) ==
        Run(L, rules, s.(index := s.index + 1, changes := s.changes[f := v + RestOfLine(L[s.index][1..]) + "\n"], first := 0))
  {
    NextContinuation(L, rules, s);
  }

  /** `Folded` takes its continuations one at a time. */
  lemma FoldedStep(v: string, conts: seq<string>)
    requires conts != [] && conts[0] != []
    ensures Folded(v, conts) ==
      ((if v != "" then v + "\n" else v) + RestOfLine(conts[0][1..]) + "\n") + Continued(conts[1..])
  {
    var c := RestOfLine(conts[0][1..]);
    var base := if v != "" then v + "\n" else v;
    assert Continued(conts) == c + "\n" + Continued(conts[1..]);
    assert base + c + "\n" + Continued(conts[1..]) == base + (c + "\n" + Continued(conts[1..]));
  }

  /** `Continued` takes its continuations one at a time. */
  lemma ContinuedStep(v: string, conts: seq<string>)
    requires conts != [] && conts[0] != []
    ensures v + Continued(conts) == (v + RestOfLine(conts[0][1..]) + "\n") + Continued(conts[1..])
  {
    var c := RestOfLine(conts[0][1..]);
    assert Continued(conts) == c + "\n" + Continued(conts[1..]);
    assert v + c + "\n" + Continued(conts[1..]) == v + (c + "\n" + Continued(conts[1..]));
  }

  /** Without signature rules, the continuation lines that end the file,
      read after a continuation, are appended to the current field. */
  lemma {:induction false} ContinuedFold(L: seq<string>, s: Scan)
    requires Good(s) && s.index <= |L| && s.field.Some? && s.first == 0
    requires AllPlain(L, s.index)
    ensures Run(L, -1, s).Success? && Run(L, -1, s).value.field == s.field
    ensures s.field.value in Run(L, -1, s).value.changes
    ensures Run(L, -1, s).value.changes[s.field.value] == s.changes[s.field.value] + Continued(L[s.index..])
    decreases |L| - s.index
  {
    var f := s.field.value;
    if s.index == |L| {
      assert L[s.index..] == [];
    } else {
      var c := RestOfLine(L[s.index][1..]);
      var t := s.(index := s.index + 1, changes := s.changes[f := s.changes[f] + c + "\n"]);
      ContinuationStep(L, -1, s);
      ContinuedFold(L, t);
      ContinuedStep(s.changes[f], L[s.index..]);
      assert L[s.index..][1..] == L[s.index + 1..];
    }
  }

  /** Without signature rules, the continuation lines that end the file,
      read right after a single-line field, are folded into that field as
      `Folded` says. */
  lemma {:induction false} ContinuationFold(L: seq<string>, s: Scan)
    requires Good(s) && s.index <= |L| && s.field.Some? && s.first == 1
    requires AllPlain(L, s.index)
    ensures Run(L, -1, s).Success? && Run(L, -1, s).value.field == s.field
    ensures s.field.value in Run(L, -1, s).value.changes
    ensures Run(L, -1, s).value.changes[s.field.value] == Folded(s.changes[s.field.value], L[s.index..])
  {
    var f := s.field.value;
    var v := s.changes[f];
    if s.index == |L| {
      assert L[s.index..] == [];
    } else {
      var c := RestOfLine(L[s.index][1..]);
      var base := if v != "" then v + "\n" else v;
      var t := s.(index := s.index + 1, changes := s.changes[f := base + c + "\n"], first := 0);
      ContinuationStep(L, -1, s);
      ContinuedFold(L, t);
      FoldedStep(v, L[s.index..]);
      assert L[s.index..][1..] == L[s.index + 1..];
    }
  }

  // ---------------------------------------------------------------------
  // The line kinds, one iteration at a time, wherever lines are processed
  // (no signature rules, or inside the signed part)

  lemma FieldLineEmpty()
    ensures FieldLine("") == None
  {
  }

  /** A single-line field binds its lower-cased name to its value and
      makes it the current field. */
  lemma {:induction false} NextField(L: seq<string>, rules: int, s: Scan, n: string, v: string)
    requires Good(s) && s.index < |L| && (rules < 0 || s.inside)
    requires FieldLine(L[s.index]) == Some((n, v))
    requires !IsSignature(L[s.index]) && !IsSigned(L[s.index])
    ensures Next(L, rules, s) ==
      Go(s.(index := s.index + 1, field := Some(Lower(n)), changes := s.changes[Lower(n) := v], first := 1))
  {
    FieldLineEmpty();
  }

  /** One single-line field, run through the whole loop. */
  lemma {:induction false} FieldStep(L: seq<string>, rules: int, s: Scan, n: string, v: string)
    requires Good(s) && s.index < |L| && (rules < 0 || s.inside)
    requires FieldLine(L[s.index]) == Some((n, v))
    requires !IsSignature(L[s.index]) && !IsSigned(L[s.index])
    ensures Run(L, rules, s) ==
      Run(L, rules, s.(index := s.index + 1, field := Some(Lower(n)), changes := s.changes[Lower(n) := v], first := 1))
  {
    NextField(L, rules, s, n, v);
  }

  /** A `" ."` line appends a newline to the current field, and raises
      when no field has been seen yet. */
  lemma {:induction false} NextDot(L: seq<string>, rules: int, s: Scan)
    requires Good(s) && s.index < |L| && (rules < 0 || s.inside)
    requires L[s.index] == " ."
    ensures s.field.None? ==> Next(L, rules, s) == Crash(FieldUnbound)
    ensures s.field.Some? ==>
      Next(L, rules, s) == Go(s.(index := s.index + 1, changes := s.changes[s.field.value := s.changes[s.field.value] + "\n"]))
  {
    assert !IsSignature(" .") && !IsSigned(" .") && FieldLine(" .") == None;
  }

  /** A continuation line before any field raises. */
  lemma {:induction false} NextOrphan(L: seq<string>, rules: int, s: Scan)
    requires Good(s) && s.index < |L| && (rules < 0 || s.inside) && s.field.None?
    requires PlainContinuation(L[s.index])
    ensures Next(L, rules, s) == Crash(ContinuationWithoutField(L[s.index]))
  {
    var line := L[s.index];
    assert !IsSignature(line) && !IsSigned(line) by {
      assert IsSpace(line[0]);
    }
  }

  /** Any other non-blank line is kept, whole, for the error message. */
  lemma {:induction false} NextUnparsed(L: seq<string>, rules: int, s: Scan)
    requires Good(s) && s.index < |L| && (rules < 0 || s.inside)
    requires L[s.index] != "" && !IsSignature(L[s.index]) && !IsSigned(L[s.index])
    requires FieldLine(L[s.index]).None? && L[s.index] != " ." && Continuation(L[s.index]).None?
    ensures Next(L, rules, s) == Go(s.(index := s.index + 1, error := s.error + L[s.index]))
  {
  }

  /** The scan after `k` more continuation lines read after a
      continuation: their texts appended, in order, to the current field. */
  function AfterContinued(L: seq<string>, s: Scan, k: nat): (r: Scan)
    requires s.field.Some? && s.field.value in s.changes && s.index + k <= |L|
    ensures r.field == s.field && r.first == s.first && r.inside == s.inside && r.error == s.error
    ensures r.index == s.index + k && s.field.value in r.changes
  {
    var f := s.field.value;
    s.(index := s.index + k, changes := s.changes[f := s.changes[f] + Continued(L[s.index..s.index + k])])
  }

  /** The scan after `k` continuation lines read right after a single-line
      field: the field's value folded as `Folded` says. */
  function AfterFolded(L: seq<string>, s: Scan, k: nat): (r: Scan)
    requires s.field.Some? && s.field.value in s.changes && s.index + k <= |L|
    ensures r.field == s.field && r.inside == s.inside && r.error == s.error
    ensures r.index == s.index + k && s.field.value in r.changes
    ensures r.first == if k == 0 then s.first else 0
  {
    var f := s.field.value;
    s.(index := s.index + k, changes := s.changes[f := Folded(s.changes[f], L[s.index..s.index + k])],
       first := if k == 0 then s.first else 0)
  }

  /** `AfterContinued` takes its lines one at a time. */
  lemma ContinuedShift(L: seq<string>, s: Scan, k: nat)
    requires s.field.Some? && s.field.value in s.changes && 1 <= k && s.index + k <= |L| && L[s.index] != []
    ensures var f := s.field.value;
      AfterContinued(L, s.(index := s.index + 1, changes := s.changes[f := s.changes[f] + RestOfLine(L[s.index][1..]) + "\n"]), k - 1) ==
        AfterContinued(L, s, k)
  {
    var f := s.field.value;
    var a := s.changes[f] + RestOfLine(L[s.index][1..]) + "\n";
    ContinuedNext(L, s.index, k, s.changes[f]);
    PutPut(s.changes, f, a, a + Continued(L[s.index + 1..s.index + k]));
  }

  /** `Continued` over the lines `L[i..i + k]`, one line at a time. */
  lemma ContinuedNext(L: seq<string>, i: nat, k: nat, v: string)
    requires 1 <= k && i + k <= |L| && L[i] != []
    ensures (v + RestOfLine(L[i][1..]) + "\n") + Continued(L[i + 1..i + k]) == v + Continued(L[i..i + k])
  {
    ContinuedStep(v, L[i..i + k]);
    assert L[i..i + k][1..] == L[i + 1..i + k];
  }

  /** `AfterFolded` is one folded line followed by `AfterContinued`. */
  lemma FoldedShift(L: seq<string>, s: Scan, k: nat)
    requires s.field.Some? && s.field.value in s.changes && 1 <= k && s.index + k <= |L| && L[s.index] != []
    ensures var f := s.field.value;
      var v := s.changes[f];
      AfterContinued(L, s.(index := s.index + 1, changes := s.changes[f := (if v != "" then v + "\n" else v) + RestOfLine(L[s.index][1..]) + "\n"], first := 0), k - 1) ==
        AfterFolded(L, s, k)
  {
    var f := s.field.value;
    var v := s.changes[f];
    var a := (if v != "" then v + "\n" else v) + RestOfLine(L[s.index][1..]) + "\n";
    FoldedNext(L, s.index, k, v);
    PutPut(s.changes, f, a, a + Continued(L[s.index + 1..s.index + k]));
  }

  /** `Folded` over the lines `L[i..i + k]`, one line at a time. */
  lemma FoldedNext(L: seq<string>, i: nat, k: nat, v: string)
    requires 1 <= k && i + k <= |L| && L[i] != []
    ensures ((if v != "" then v + "\n" else v) + RestOfLine(L[i][1..]) + "\n") + Continued(L[i + 1..i + k]) ==
      Folded(v, L[i..i + k])
  {
    FoldedStep(v, L[i..i + k]);
    assert L[i..i + k][1..] == L[i + 1..i + k];
  }

  lemma PutPut(m: map<string, string>, f: string, a: string, b: string)
    ensures m[f := a][f := b] == m[f := b]
  {
  }

  /** `k` continuation lines read after a continuation append their texts,
      in order, to the current field, whatever follows them. */
  lemma {:induction false} ContinuedRun(L: seq<string>, rules: int, s: Scan, k: nat)
    requires Good(s) && s.field.Some? && s.first == 0 && (rules < 0 || s.inside)
    requires s.index + k <= |L|
    requires PlainLines(L, s.index, k)
    ensures Run(L, rules, s) == Run(L, rules, AfterContinued(L, s, k))
    decreases k
  {
    var f := s.field.value;
    if k == 0 {
      assert L[s.index..s.index] == [];
      assert s.changes[f] + Continued([]) == s.changes[f];
      assert s.changes[f := s.changes[f]] == s.changes;
      assert AfterContinued(L, s, 0) == s;
    } else {
      var t := s.(index := s.index + 1, changes := s.changes[f := s.changes[f] + RestOfLine(L[s.index][1..]) + "\n"]);
      ContinuationStep(L, rules, s);
      assert Run(L, rules, s) == Run(L, rules, t);
      ContinuedRun(L, rules, t, k - 1);
      ContinuedShift(L, s, k);
    }
  }

  /** `k` continuation lines read right after a single-line field fold
      into its value as `Folded` says, whatever follows them. */
  lemma {:induction false} ContinuationRun(L: seq<string>, rules: int, s: Scan, k: nat)
    requires Good(s) && s.field.Some? && s.first == 1 && (rules < 0 || s.inside)
    requires s.index + k <= |L|
    requires PlainLines(L, s.index, k)
    ensures Run(L, rules, s) == Run(L, rules, AfterFolded(L, s, k))
  {
    var f := s.field.value;
    var v := s.changes[f];
    if k == 0 {
      assert L[s.index..s.index] == [];
      assert Folded(v, []) == v;
      assert s.changes[f := v] == s.changes;
      assert AfterFolded(L, s, 0) == s;
    } else {
      var t := s.(index := s.index + 1, changes := s.changes[f := (if v != "" then v + "\n" else v) + RestOfLine(L[s.index][1..]) + "\n"], first := 0);
      ContinuationStep(L, rules, s);
      assert Run(L, rules, s) == Run(L, rules, t);
      ContinuedRun(L, rules, t, k - 1);
      FoldedShift(L, s, k);
    }
  }

  /** A field line and the `k` continuation lines after it bind the field's
      lower-cased name to the folded value, whatever follows them. */
  lemma {:induction false} FieldRun(L: seq<string>, rules: int, s: Scan, n: string, v: string, k: nat)
    requires Good(s) && s.index + 1 + k <= |L| && (rules < 0 || s.inside)
    requires FieldLine(L[s.index]) == Some((n, v))
    requires !IsSignature(L[s.index]) && !IsSigned(L[s.index])
    requires PlainLines(L, s.index + 1, k)
    ensures Run(L, rules, s) ==
      Run(L, rules, s.(index := s.index + 1 + k, field := Some(Lower(n)),
                       changes := s.changes[Lower(n) := Folded(v, L[s.index + 1..s.index + 1 + k])],
                       first := if k == 0 then 1 else 0))
  {
    var f := Lower(n);
    var conts := L[s.index + 1..s.index + 1 + k];
    var t := s.(index := s.index + 1, field := Some(f), changes := s.changes[f := v], first := 1);
    var u := s.(index := s.index + 1 + k, field := Some(f), changes := s.changes[f := Folded(v, conts)],
                first := if k == 0 then 1 else 0);
    FieldStep(L, rules, s, n, v);
    ContinuationRun(L, rules, t, k);
    BoundFolded(L, s, f, v, k);
  }

  /** The scan `FieldRun` reaches, as `AfterFolded` gives it. */
  lemma BoundFolded(L: seq<string>, s: Scan, f: string, v: string, k: nat)
    requires s.index + 1 + k <= |L|
    ensures AfterFolded(L, s.(index := s.index + 1, field := Some(f), changes := s.changes[f := v], first := 1), k) ==
      s.(index := s.index + 1 + k, field := Some(f), changes := s.changes[f := Folded(v, L[s.index + 1..s.index + 1 + k])],
         first := if k == 0 then 1 else 0)
  {
    var t := s.(index := s.index + 1, field := Some(f), changes := s.changes[f := v], first := 1);
    assert t.changes[f := Folded(v, L[t.index..t.index + k])] == s.changes[f := Folded(v, L[s.index + 1..s.index + 1 + k])];
  }
}
