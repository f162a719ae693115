/** The part of `check_signature` (dak/lib/utils.py) that does not run
    gpgv: the filename taint check, the reading of gpgv's `--status-fd`
    lines into keywords and internal errors, and the decision whether a
    signature is good and which key made it. The status text, gpgv's
    other output and its exit status are parameters. */
module Signature {
  import opened Results
  import opened Text
  import opened StringUtils

  // ---------------------------------------------------------------------
  // re_taint_free = ^[-+~/\.\w]+$

  /** The characters a filename may contain: `-+~/.`, and `\w`, which
      without a locale flag means ASCII letters, digits and `_`. */
  predicate NameChar(c: char) {
    c == '-' || c == '+' || c == '~' || c == '/' || c == '.' || c == '_' ||
    'a' <= c <= 'z' || 'A' <= c <= 'Z' || '0' <= c <= '9'
  }

  predicate PlainName(s: string) {
    |s| >= 1 && forall i :: 0 <= i < |s| ==> NameChar(s[i])
  }

  /** `re_taint_free.match(s)`: `$` matches at the end of the string and
      also just before a newline that ends it. */
  predicate TaintFree(s: string) {
    PlainName(s) || (|s| >= 2 && s[|s| - 1] == '\n' && PlainName(s[..|s| - 1]))
  }

  /** A name that passes the check holds only name characters, except
      possibly one closing newline. */
  lemma TaintFreeChars(s: string)
    requires TaintFree(s)
    ensures |s| >= 1
    ensures forall i :: 0 <= i < |s| - 1 ==> NameChar(s[i])
    ensures NameChar(s[|s| - 1]) || s[|s| - 1] == '\n'
  {
    if !PlainName(s) {
      assert forall i :: 0 <= i < |s| - 1 ==> s[i] == s[..|s| - 1][i];
    }
  }

  /** The closing newline is let through: a plain name followed by one
      passes, followed by two does not. */
  lemma TaintFreeNewline(s: string)
    requires PlainName(s)
    ensures TaintFree(s + "\n")
    ensures !TaintFree(s + "\n\n")
  {
    assert (s + "\n")[..|s|] == s;
    var t := s + "\n\n";
    assert !NameChar(t[|t| - 1]);
    assert !NameChar(t[..|t| - 1][|t| - 2]);
  }

  // ---------------------------------------------------------------------
  // The status-fd lines

  /** The complaints the loop collects in `internal_error`. */
  datatype StatusFault =
    | TooFewAtoms(line: string)
    | WrongPrefix(prefix: string)
    | Duplicate(keyword: string)

  /** One line of status output: blank, malformed, or a keyword with its
      arguments. */
  datatype StatusLine =
    | Empty
    | Malformed(fault: StatusFault)
    | Entry(keyword: string, args: seq<string>)

  const Prefix: string := "[GNUPG:]"

  function Classify(raw: string): StatusLine {
    var line := Strip(raw);
    if line == "" then Empty
    else
      var split := Words(line);
      if |split| < 2 then Malformed(TooFewAtoms(line))
      else if split[0] != Prefix then Malformed(WrongPrefix(split[0]))
      else Entry(split[1], split[2..])
  }

  /** What the loop has gathered: `keywords` and `internal_error`. */
  datatype Status = Status(keywords: map<string, seq<string>>, faults: seq<StatusFault>)

  /** The keywords gpgv may legitimately repeat. */
  predicate Repeatable(k: string) {
    k == "NODATA" || k == "SIGEXPIRED"
  }

  /** One turn of the loop. */
  function Absorb(st: Status, l: StatusLine): Status {
    match l
    case Empty => st
    case Malformed(f) => Status(st.keywords, st.faults + [f])
    case Entry(k, args) =>
      if k in st.keywords && !Repeatable(k) then Status(st.keywords, st.faults + [Duplicate(k)])
      else Status(st.keywords[k := args], st.faults)
  }

  function Fold(ls: seq<StatusLine>, st: Status): Status
    decreases |ls|
  {
    if ls == [] then st else Fold(ls[1..], Absorb(st, ls[0]))
  }

  function Classified(lines: seq<string>): (ls: seq<StatusLine>)
    ensures |ls| == |lines|
    decreases |lines|
  {
    if lines == [] then [] else [Classify(lines[0])] + Classified(lines[1..])
  }

  lemma {:induction false} ClassifiedAt(lines: seq<string>)
    ensures forall i :: 0 <= i < |lines| ==> Classified(lines)[i] == Classify(lines[i])
    decreases |lines|
  {
    if lines != [] {
      ClassifiedAt(lines[1..]);
      assert forall i :: 1 <= i < |lines| ==> lines[i] == lines[1..][i - 1];
    }
  }

  /** What the loop leaves behind for the whole status text. */
  function StatusOf(status: string): Status {
    Fold(Classified(SplitOn(status, '\n')), Status(map[], []))
  }

  /** The status loop of `check_signature`. */
  method ParseStatus(status: string) returns (keywords: map<string, seq<string>>, faults: seq<StatusFault>)
    ensures Status(keywords, faults) == StatusOf(status)
  {
    var lines := SplitOn(status, '\n');
    keywords, faults := map[], [];
    var k := 0;
    while k < |lines|
      invariant 0 <= k <= |lines|
      invariant StatusOf(status) == Fold(Classified(lines[k..]), Status(keywords, faults))
    {
      assert lines[k..][1..] == lines[k + 1..];
      ghost var before := Status(keywords, faults);
      var line := Strip(lines[k]);
      if line != "" {
        var split := Words(line);
        if |split| < 2 {
          faults := faults + [TooFewAtoms(line)];
        } else if split[0] != Prefix {
          faults := faults + [WrongPrefix(split[0])];
        } else {
          var keyword := split[1];
          if keyword in keywords && !Repeatable(keyword) {
            faults := faults + [Duplicate(keyword)];
          } else {
            keywords := keywords[keyword := split[2..]];
          }
        }
      }
      assert Status(keywords, faults) == Absorb(before, Classify(lines[k]));
      k := k + 1;
    }
  }

  // ---------------------------------------------------------------------
  // What the loop gathers

  predicate Mentions(l: StatusLine, k: string) {
    l.Entry? && l.keyword == k
  }

  /** Complaints only accumulate. */
  lemma {:induction false} FoldFaultsGrow(ls: seq<StatusLine>, st: Status)
    ensures st.faults <= Fold(ls, st).faults
    decreases |ls|
  {
    if ls != [] {
      FoldFaultsGrow(ls[1..], Absorb(st, ls[0]));
    }
  }

  /** The keywords gathered: those of the well-formed lines. */
  lemma {:induction false} FoldKeys(ls: seq<StatusLine>, st: Status, k: string)
    ensures k in Fold(ls, st).keywords <==> k in st.keywords || exists i :: 0 <= i < |ls| && Mentions(ls[i], k)
    decreases |ls|
  {
    if ls != [] {
      FoldKeys(ls[1..], Absorb(st, ls[0]), k);
      if exists i :: 0 <= i < |ls[1..]| && Mentions(ls[1..][i], k) {
        var i :| 0 <= i < |ls[1..]| && Mentions(ls[1..][i], k);
        assert ls[i + 1] == ls[1..][i];
      }
      if exists i :: 0 <= i < |ls| && Mentions(ls[i], k) {
        var i :| 0 <= i < |ls| && Mentions(ls[i], k);
        if i > 0 {
          assert ls[1..][i - 1] == ls[i];
        }
      }
    }
  }

  /** A keyword that is gathered stays, with its arguments, while no
      later line mentions it. */
  lemma {:induction false} FoldKeeps(ls: seq<StatusLine>, st: Status, k: string)
    requires k in st.keywords
    requires forall i :: 0 <= i < |ls| ==> !Mentions(ls[i], k)
    ensures k in Fold(ls, st).keywords && Fold(ls, st).keywords[k] == st.keywords[k]
    decreases |ls|
  {
    if ls != [] {
      assert !Mentions(ls[0], k);
      assert forall i :: 0 <= i < |ls| - 1 ==> ls[1..][i] == ls[i + 1];
      FoldKeeps(ls[1..], Absorb(st, ls[0]), k);
    }
  }

  /** A keyword gpgv may not repeat keeps the arguments of its first
      line; later ones are complaints. */
  lemma {:induction false} FoldFirst(ls: seq<StatusLine>, st: Status, i: nat, k: string)
    requires !Repeatable(k) && k !in st.keywords
    requires i < |ls| && Mentions(ls[i], k)
    requires forall j :: 0 <= j < i ==> !Mentions(ls[j], k)
    ensures k in Fold(ls, st).keywords && Fold(ls, st).keywords[k] == ls[i].args
    decreases |ls|
  {
    assert forall j :: 0 <= j < |ls| - 1 ==> ls[1..][j] == ls[j + 1];
    if i > 0 {
      assert !Mentions(ls[0], k);
      FoldFirst(ls[1..], Absorb(st, ls[0]), i - 1, k);
    } else {
      FoldStays(ls[1..], Absorb(st, ls[0]), k);
    }
  }

  /** Once a keyword gpgv may not repeat is gathered, nothing replaces
      its arguments. */
  lemma {:induction false} FoldStays(ls: seq<StatusLine>, st: Status, k: string)
    requires !Repeatable(k) && k in st.keywords
    ensures k in Fold(ls, st).keywords && Fold(ls, st).keywords[k] == st.keywords[k]
    decreases |ls|
  {
    if ls != [] {
      FoldStays(ls[1..], Absorb(st, ls[0]), k);
    }
  }

  /** `NODATA` and `SIGEXPIRED` keep the arguments of their last line. */
  lemma {:induction false} FoldLast(ls: seq<StatusLine>, st: Status, i: nat, k: string)
    requires Repeatable(k)
    requires i < |ls| && Mentions(ls[i], k)
    requires forall j :: i < j < |ls| ==> !Mentions(ls[j], k)
    ensures k in Fold(ls, st).keywords && Fold(ls, st).keywords[k] == ls[i].args
    decreases |ls|
  {
    assert forall j :: 0 <= j < |ls| - 1 ==> ls[1..][j] == ls[j + 1];
    if i > 0 {
      FoldLast(ls[1..], Absorb(st, ls[0]), i - 1, k);
    } else {
      FoldKeeps(ls[1..], Absorb(st, ls[0]), k);
    }
  }

  /** Line `i` draws no complaint from the loop, given the keywords seen
      before the first line. */
  predicate Fine(ls: seq<StatusLine>, i: nat, seen: set<string>)
    requires i < |ls|
  {
    !ls[i].Malformed? &&
    (ls[i].Entry? && !Repeatable(ls[i].keyword) ==>
       ls[i].keyword !in seen && forall j :: 0 <= j < i ==> !Mentions(ls[j], ls[i].keyword))
  }

  predicate Clean(ls: seq<StatusLine>, seen: set<string>) {
    forall i :: 0 <= i < |ls| ==> Fine(ls, i, seen)
  }

  /** The loop adds no complaint exactly when every line is well formed
      and no keyword other than `NODATA` and `SIGEXPIRED` comes twice. */
  lemma {:induction false} FoldClean(ls: seq<StatusLine>, st: Status)
    ensures Fold(ls, st).faults == st.faults <==> Clean(ls, st.keywords.Keys)
    decreases |ls|
  {
    if ls != [] {
      var st' := Absorb(st, ls[0]);
      FoldClean(ls[1..], st');
      FoldFaultsGrow(ls[1..], st');
      if st'.faults == st.faults {
        CleanStep(ls, st.keywords.Keys, st'.keywords.Keys);
      } else {
        assert |st'.faults| > |st.faults|;
        assert !Fine(ls, 0, st.keywords.Keys);
      }
    }
  }

  /** `Clean` peels off a first line that draws no complaint. */
  lemma CleanStep(ls: seq<StatusLine>, seen: set<string>, seen': set<string>)
    requires ls != [] && Fine(ls, 0, seen)
    requires seen' == if ls[0].Entry? then seen + {ls[0].keyword} else seen
    ensures Clean(ls, seen) <==> Clean(ls[1..], seen')
  {
    var rest := ls[1..];
    assert forall i :: 0 <= i < |rest| ==> rest[i] == ls[i + 1];
    if Clean(rest, seen') {
      forall i | 0 <= i < |ls|
        ensures Fine(ls, i, seen)
      {
        if i > 0 {
          assert Fine(rest, i - 1, seen');
        }
      }
    }
    if Clean(ls, seen) {
      forall i | 0 <= i < |rest|
        ensures Fine(rest, i, seen')
      {
        assert Fine(ls, i + 1, seen);
      }
    }
  }

  // ---------------------------------------------------------------------
  // The verdict

  /** The reasons `check_signature` passes to `reject`. The three calls
      for internal errors are one reason here, and so are the calls for
      unknown tokens, which come in the dictionary's order. */
  datatype Reason =
    | TaintedSignature(name: string)
    | TaintedData(name: string)
    | InternalError(faults: seq<StatusFault>)
    | KeyExpired
    | KeyRevoked
    | BadSignature
    | CheckFailed
    | KeyNotFound(key: Option<string>)
    | BadArmour
    | NoSignatureFound
    | GpgvFailed(detail: string)
    | NoValidSig
    | ValidSigWithoutFingerprint
    | NoGoodSig
    | NoSigId
    | UnknownTokens(tokens: set<string>)

  /** What `check_signature` returns (None or the fingerprint) and the
      reasons it rejected with, in order. */
  datatype Verdict = Verdict(fingerprint: Option<string>, reasons: seq<Reason>)

  function Flag(b: bool, r: Reason): seq<Reason> {
    if b then [r] else []
  }

  /** The keywords that mark a bad signature, checked in this order. */
  function Problems(kw: map<string, seq<string>>): seq<Reason> {
    Flag("SIGEXPIRED" in kw, KeyExpired) +
    Flag("KEYREVOKED" in kw, KeyRevoked) +
    Flag("BADSIG" in kw, BadSignature) +
    Flag("ERRSIG" in kw && "NO_PUBKEY" !in kw, CheckFailed) +
    Flag("NO_PUBKEY" in kw,
         KeyNotFound(if "NO_PUBKEY" in kw && |kw["NO_PUBKEY"]| >= 1 then Some(kw["NO_PUBKEY"][0]) else None)) +
    Flag("BADARMOR" in kw, BadArmour) +
    Flag("NODATA" in kw, NoSignatureFound)
  }

  const Known: set<string> :=
    {"VALIDSIG", "SIG_ID", "GOODSIG", "BADSIG", "ERRSIG", "SIGEXPIRED", "KEYREVOKED",
     "NO_PUBKEY", "BADARMOR", "NODATA"}

  /** What a good signature must have, and nothing unknown beside it. */
  function Missing(kw: map<string, seq<string>>): seq<Reason> {
    (if "VALIDSIG" !in kw then [NoValidSig]
     else if |kw["VALIDSIG"]| < 1 then [ValidSigWithoutFingerprint]
     else []) +
    Flag("GOODSIG" !in kw, NoGoodSig) +
    Flag("SIG_ID" !in kw, NoSigId) +
    Flag(kw.Keys - Known != {}, UnknownTokens(kw.Keys - Known))
  }

  /** The report on a failed gpgv run: the status output, or gpgv's other
      output when the status is blank, each line prefixed. */
  function FailureDetail(status: string, output: string): string {
    if Strip(status) != "" then Join("\n", Prefixed(SplitOn(status, '\n'), " [GPG status-fd output:] ", false))
    else Join("\n", Prefixed(SplitOn(output, '\n'), " [GPG output:] ", false))
  }

  /** Everything after the status loop. */
  function Judge(st: Status, exitStatus: int, status: string, output: string): Verdict {
    if st.faults != [] then Verdict(None, [InternalError(st.faults)])
    else if Problems(st.keywords) != [] then Verdict(None, Problems(st.keywords))
    else if exitStatus != 0 then Verdict(None, [GpgvFailed(FailureDetail(status, output))])
    else if Missing(st.keywords) != [] then Verdict(None, Missing(st.keywords))
    else Verdict(Some(st.keywords["VALIDSIG"][0]), [])
  }

  /** `check_signature` once gpgv has run: `status`, `output` and
      `exitStatus` are what it produced. */
  method CheckSignature(sigFilename: string, dataFilename: string,
                        status: string, output: string, exitStatus: int) returns (v: Verdict)
    ensures !TaintFree(sigFilename) ==> v == Verdict(None, [TaintedSignature(sigFilename)])
    ensures TaintFree(sigFilename) && dataFilename != "" && !TaintFree(dataFilename) ==>
      v == Verdict(None, [TaintedData(dataFilename)])
    ensures TaintFree(sigFilename) && (dataFilename == "" || TaintFree(dataFilename)) ==>
      v == Judge(StatusOf(status), exitStatus, status, output)
  {
    if !TaintFree(sigFilename) {
      return Verdict(None, [TaintedSignature(sigFilename)]);
    }
    if dataFilename != "" && !TaintFree(dataFilename) {
      return Verdict(None, [TaintedData(dataFilename)]);
    }
    var keywords, faults := ParseStatus(status);
    v := Judge(Status(keywords, faults), exitStatus, status, output);
  }

  // ---------------------------------------------------------------------
  // Properties of the verdict

  /** A fingerprint comes back exactly when the status was read without
      complaint, gpgv exited with 0, and the keywords are precisely
      `VALIDSIG`, `GOODSIG` and `SIG_ID`, with a fingerprint after
      `VALIDSIG`; the fingerprint is that argument and nothing is
      rejected. */
  lemma JudgeAccepts(st: Status, exitStatus: int, status: string, output: string)
    ensures Judge(st, exitStatus, status, output).fingerprint.Some? <==>
      st.faults == [] && exitStatus == 0 &&
      st.keywords.Keys == {"VALIDSIG", "GOODSIG", "SIG_ID"} && |st.keywords["VALIDSIG"]| >= 1
    ensures Judge(st, exitStatus, status, output).fingerprint.Some? ==>
      Judge(st, exitStatus, status, output) == Verdict(Some(st.keywords["VALIDSIG"][0]), [])
  {
    var kw := st.keywords;
    var good := {"VALIDSIG", "GOODSIG", "SIG_ID"};
    if Problems(kw) == [] && Missing(kw) == [] {
      assert "VALIDSIG" in kw && "GOODSIG" in kw && "SIG_ID" in kw;
      assert kw.Keys - Known == {};
      forall k | k in kw.Keys
        ensures k in good
      {
        assert k in Known;
      }
    }
    if kw.Keys == good {
      assert kw.Keys - Known == {};
    }
  }

  /** Every rejection comes with a reason and every reason means a
      rejection. */
  lemma JudgeReasons(st: Status, exitStatus: int, status: string, output: string)
    ensures Judge(st, exitStatus, status, output).fingerprint.None? <==>
      Judge(st, exitStatus, status, output).reasons != []
  {
  }

  /** A complaint about the status output rejects the signature, with
      exactly those complaints as the reason. */
  lemma FaultsReject(st: Status, exitStatus: int, status: string, output: string)
    requires st.faults != []
    ensures Judge(st, exitStatus, status, output) == Verdict(None, [InternalError(st.faults)])
  {
  }

  /** A keyword outside the known set rejects the signature, whatever gpgv
      said otherwise. */
  lemma UnknownRejects(st: Status, exitStatus: int, status: string, output: string, k: string)
    requires k in st.keywords && k !in Known
    ensures Judge(st, exitStatus, status, output).fingerprint.None?
  {
    JudgeAccepts(st, exitStatus, status, output);
  }

  /** A key missing from the keyring is reported with its id when gpgv
      names one. */
  lemma MissingKeyReported(st: Status, exitStatus: int, status: string, output: string)
    requires st.faults == [] && "NO_PUBKEY" in st.keywords
    ensures var v := Judge(st, exitStatus, status, output);
      v.fingerprint.None? &&
      KeyNotFound(if |st.keywords["NO_PUBKEY"]| >= 1 then Some(st.keywords["NO_PUBKEY"][0]) else None) in v.reasons &&
      CheckFailed !in v.reasons
  {
  }

  // ---------------------------------------------------------------------
  // NO_PUBKEY without a key id

  datatype Raised = KeyUnbound

  /** The code as written: the message for `NO_PUBKEY` uses `key`, which
      is bound only when the keyword has an argument, so a bare
      `NO_PUBKEY` line raises once the status has been read cleanly. */
  function JudgeAsWritten(st: Status, exitStatus: int, status: string, output: string): Result<Verdict, Raised> {
    if st.faults == [] && "NO_PUBKEY" in st.keywords && |st.keywords["NO_PUBKEY"]| == 0 then Failure(KeyUnbound)
    else Success(Judge(st, exitStatus, status, output))
  }

  /** The status line `[GNUPG:] NO_PUBKEY` on its own makes the code as
      written raise, where the corrected `Judge` rejects with a key not
      found. */
  lemma BareNoPubkey(exitStatus: int, output: string)
    ensures var status := Join(" ", [Prefix, "NO_PUBKEY"]);
      StatusOf(status) == Status(map["NO_PUBKEY" := []], []) &&
      JudgeAsWritten(StatusOf(status), exitStatus, status, output) == Failure(KeyUnbound) &&
      KeyNotFound(None) in Judge(StatusOf(status), exitStatus, status, output).reasons
  {
    var status := Join(" ", [Prefix, "NO_PUBKEY"]);
    BareNoPubkeyLine(status);
    OneEntryStatus(status, "NO_PUBKEY", []);
    var st := StatusOf(status);
    assert Problems(st.keywords)[0] == KeyNotFound(None);
  }

  /** A status of one line holding one keyword. */
  lemma OneEntryStatus(status: string, k: string, args: seq<string>)
    requires NoChar(status, '\n') && Classify(status) == Entry(k, args)
    ensures StatusOf(status) == Status(map[k := args], [])
  {
    SplitOnFree(status, '\n');
    assert Classified([status]) == [Entry(k, args)];
    assert Fold([Entry(k, args)], Status(map[], [])) == Fold([], Status(map[k := args], []));
  }

  lemma BareNoPubkeyLine(status: string)
    requires status == Join(" ", [Prefix, "NO_PUBKEY"])
    ensures NoChar(status, '\n')
    ensures Classify(status) == Entry("NO_PUBKEY", [])
  {
    assert IsToken(Prefix) && IsToken("NO_PUBKEY");
    WordsJoin([Prefix, "NO_PUBKEY"]);
    assert status == Prefix + " " + "NO_PUBKEY";
    StripPlain(status);
  }

  /** Everywhere else the two agree. */
  lemma AsWrittenAgrees(st: Status, exitStatus: int, status: string, output: string)
    requires !(st.faults == [] && "NO_PUBKEY" in st.keywords && |st.keywords["NO_PUBKEY"]| == 0)
    ensures JudgeAsWritten(st, exitStatus, status, output) == Success(Judge(st, exitStatus, status, output))
  {
  }
}
