/** The `Index` descriptor kept next to the incremental diffs of an archive
    index file, and the `Updates` object that reads and writes it.

    The descriptor is line oriented:

        Canonical-Path: <path>
        SHA1-Current: <digest> <size>
        SHA1-History:
         <digest> <size> <name>        (one per patch, identity before it)
        SHA1-Patches:
         <digest> <size> <name>        (one per patch, identity of the patch)

    Sizes are written with `%7d`. A block is the run of lines that start
    with a space; the first line that does not is read as a keyword line
    again. */
module IndexLedger {
  import opened Results
  import opened Text
  import opened IndexFs

  /** One history entry: slot 0 is filled from `SHA1-History`, slot 1 from
      `SHA1-Patches`. */
  datatype Slots = Slots(before: Option<Identity>, patch: Option<Identity>)

  datatype Block = HistoryBlock | PatchesBlock

  /** The four fields of `Updates` that the descriptor carries. */
  datatype Ledger = Ledger(
    canPath: Option<string>,
    current: Option<Identity>,
    history: map<string, Slots>,
    order: seq<string>)

  const EmptyLedger: Ledger := Ledger(None, None, map[], [])

  /** The keywords of the descriptor. */
  const CanonKey: string := "Canonical-Path:"
  const CanonNameKey: string := "Canonical-Name:"
  const CurrentKey: string := "SHA1-Current:"
  const HistoryKey: string := "SHA1-History:"
  const PatchesKey: string := "SHA1-Patches:"

  /** The exceptions `Updates.__init__` does not catch, with the index of the
      offending line: too few words (IndexError) or a bad size (ValueError). */
  datatype LoadError = IndexError(line: nat) | ValueError(line: nat)

  function SlotOf(s: Slots, b: Block): Option<Identity> {
    match b
    case HistoryBlock => s.before
    case PatchesBlock => s.patch
  }

  function SetSlot(s: Slots, b: Block, id: Identity): (r: Slots)
    ensures SlotOf(r, b) == Some(id)
    ensures b == HistoryBlock ==> r.patch == s.patch
    ensures b == PatchesBlock ==> r.before == s.before
  {
    match b
    case HistoryBlock => s.(before := Some(id))
    case PatchesBlock => s.(patch := Some(id))
  }

  predicate Distinct(s: seq<string>, i: int, j: int)
    requires 0 <= i < |s| && 0 <= j < |s|
  {
    s[i] != s[j]
  }

  /** No name is listed twice. */
  predicate Unique(s: seq<string>) {
    forall i, j :: 0 <= i < j < |s| ==> Distinct(s, i, j)
  }

  /** Two different positions of a unique list hold different names. */
  lemma UniqueAt(s: seq<string>, i: int, j: int)
    requires Unique(s) && 0 <= i < |s| && 0 <= j < |s| && i != j
    ensures s[i] != s[j]
  {
    if i < j {
      assert Distinct(s, i, j);
    } else {
      assert Distinct(s, j, i);
    }
  }

  /** The history table and the order list name the same entries, each once. */
  ghost predicate Keyed(L: Ledger) {
    && Unique(L.order)
    && (forall k :: 0 <= k < |L.order| ==> L.order[k] in L.history)
    && (forall n :: n in L.history ==> n in L.order)
  }

  /** One block line: a new name is added with two empty slots and appended
      to the order; then the block's slot is filled. */
  function Record(acc: Ledger, name: string, b: Block, id: Identity): (r: Ledger)
    ensures name in r.history && SlotOf(r.history[name], b) == Some(id)
    ensures r.order == if name in acc.history then acc.order else acc.order + [name]
  {
    var s := if name in acc.history then acc.history[name] else Slots(None, None);
    var order := if name in acc.history then acc.order else acc.order + [name];
    acc.(history := acc.history[name := SetSlot(s, b, id)], order := order)
  }

  // ---------------------------------------------------------------------
  // Reading: Updates.__init__

  /** The keyword loop of `__init__`, from line `i` on. */
  function ParseFrom(lines: seq<string>, i: nat, acc: Ledger): (r: Result<Ledger, LoadError>)
    requires i <= |lines|
    decreases |lines| - i, 0
  {
    if i == |lines| then Success(acc)
    else
      var l := Words(lines[i]);
      if |l| == 0 then ParseFrom(lines, i + 1, acc)
      else if l[0] == HistoryKey then ParseBlock(lines, i + 1, HistoryBlock, acc)
      else if l[0] == PatchesKey then ParseBlock(lines, i + 1, PatchesBlock, acc)
      else
        var isCanon := l[0] == CanonNameKey || l[0] == CanonKey;
        if isCanon && |l| < 2 then Failure(IndexError(i))
        else
          var acc1 := if isCanon then acc.(canPath := Some(l[1])) else acc;
          if l[0] == CurrentKey && |l| == 3 then
            match ParseInt(l[2])
            case None => Failure(ValueError(i))
            case Some(n) => ParseFrom(lines, i + 1, acc1.(current := Some(Identity(l[1], n))))
          else ParseFrom(lines, i + 1, acc1)
  }

  /** `read_hashs`: block lines from line `j` on; at the end of the block the
      keyword loop resumes on the line that ended it. */
  function ParseBlock(lines: seq<string>, j: nat, b: Block, acc: Ledger): (r: Result<Ledger, LoadError>)
    requires j <= |lines|
    decreases |lines| - j, 1
  {
    if j == |lines| || !StartsWith(lines[j], " ") then ParseFrom(lines, j, acc)
    else
      var l := Words(lines[j]);
      if |l| < 3 then Failure(IndexError(j))
      else
        match ParseInt(l[1])
        case None => Failure(ValueError(j))
        case Some(n) => ParseBlock(lines, j + 1, b, Record(acc, l[2], b, Identity(l[0], n)))
  }

  /** The ledger a descriptor's lines describe. */
  function ParseIndex(lines: seq<string>): Result<Ledger, LoadError> {
    ParseFrom(lines, 0, EmptyLedger)
  }

  /** Recording a line keeps each entry listed once. */
  lemma RecordKeyed(acc: Ledger, name: string, b: Block, id: Identity)
    requires Keyed(acc)
    ensures Keyed(Record(acc, name, b, id))
  {
    var r := Record(acc, name, b, id);
    if name !in acc.history {
      assert name !in acc.order;
      forall i, j | 0 <= i < j < |r.order| ensures Distinct(r.order, i, j) {
        if j < |acc.order| {
          UniqueAt(acc.order, i, j);
        } else {
          assert r.order[i] == acc.order[i] && r.order[j] == name;
        }
      }
    }
  }

  lemma {:induction false} ParseFromKeyed(lines: seq<string>, i: nat, acc: Ledger)
    requires i <= |lines| && Keyed(acc)
    ensures ParseFrom(lines, i, acc).Success? ==> Keyed(ParseFrom(lines, i, acc).value)
    decreases |lines| - i, 0
  {
    if i < |lines| {
      var l := Words(lines[i]);
      if |l| == 0 {
        ParseFromKeyed(lines, i + 1, acc);
      } else if l[0] == HistoryKey {
        ParseBlockKeyed(lines, i + 1, HistoryBlock, acc);
      } else if l[0] == PatchesKey {
        ParseBlockKeyed(lines, i + 1, PatchesBlock, acc);
      } else {
        var isCanon := l[0] == CanonNameKey || l[0] == CanonKey;
        if !(isCanon && |l| < 2) {
          var acc1 := if isCanon then acc.(canPath := Some(l[1])) else acc;
          if l[0] == CurrentKey && |l| == 3 {
            if ParseInt(l[2]).Some? {
              ParseFromKeyed(lines, i + 1, acc1.(current := Some(Identity(l[1], ParseInt(l[2]).value))));
            }
          } else {
            ParseFromKeyed(lines, i + 1, acc1);
          }
        }
      }
    }
  }

  lemma {:induction false} ParseBlockKeyed(lines: seq<string>, j: nat, b: Block, acc: Ledger)
    requires j <= |lines| && Keyed(acc)
    ensures ParseBlock(lines, j, b, acc).Success? ==> Keyed(ParseBlock(lines, j, b, acc).value)
    decreases |lines| - j, 1
  {
    if j == |lines| || !StartsWith(lines[j], " ") {
      ParseFromKeyed(lines, j, acc);
    } else {
      var l := Words(lines[j]);
      if |l| >= 3 && ParseInt(l[1]).Some? {
        var acc1 := Record(acc, l[2], b, Identity(l[0], ParseInt(l[1]).value));
        RecordKeyed(acc, l[2], b, Identity(l[0], ParseInt(l[1]).value));
        ParseBlockKeyed(lines, j + 1, b, acc1);
      }
    }
  }

  /** A descriptor that parses lists each of its entries exactly once, in
      the order table and in the history table alike. */
  lemma ParseIndexKeyed(lines: seq<string>)
    ensures ParseIndex(lines).Success? ==> Keyed(ParseIndex(lines).value)
  {
    ParseFromKeyed(lines, 0, EmptyLedger);
  }

  function IndexFile(dir: string): string {
    dir + "/Index"
  }

  /** What `Updates(readpath)` loads: nothing when `readpath` is None or
      empty or when `readpath/Index` cannot be opened, otherwise the parse
      of its lines. */
  function LoadSpec(fs: Fs, readpath: Option<string>): Result<Ledger, LoadError> {
    if readpath.None? || readpath.value == "" then Success(EmptyLedger)
    else
      match Content(fs, IndexFile(readpath.value))
      case None => Success(EmptyLedger)
      case Some(c) => ParseIndex(Lines(c))
  }

  lemma LoadMissing(fs: Fs, readpath: Option<string>)
    requires readpath.None? || readpath.value == "" || !IsFile(fs, IndexFile(readpath.value))
    ensures LoadSpec(fs, readpath) == Success(Ledger(None, None, map[], []))
  {
  }

  // ---------------------------------------------------------------------
  // Writing: Updates.dump

  function CanonLine(p: string): string {
    CanonKey + " " + p + "\n"
  }

  function CurrentLine(id: Identity): string {
    CurrentKey + " " + id.digest + " " + FormatWidth7(id.size) + "\n"
  }

  function BlockLine(id: Identity, name: string): string {
    " " + id.digest + " " + FormatWidth7(id.size) + " " + name + "\n"
  }

  /** The two header lines, each only when its field is set (an empty path
      is false in Python). */
  function HeaderText(L: Ledger): string {
    (if L.canPath.Some? && L.canPath.value != "" then CanonLine(L.canPath.value) else "")
    + (if L.current.Some? then CurrentLine(L.current.value) else "")
  }

  /** The file `dump` removes for an evicted patch; `"%s" % None` is
      "None". */
  function PatchPath(readpath: Option<string>, name: string): string {
    (if readpath.None? then "None" else readpath.value) + "/" + name + ".gz"
  }

  /** How many names `dump` evicts from `n` when `n > max`: the slice
      `l[:n-max]` clamps to the whole list when `max` is negative. */
  function Cut(n: nat, max: int): (c: nat)
    requires n > max
    ensures c <= n
  {
    if max >= 0 then n - max else n
  }

  datatype EvictOut = EvictOut(hs: map<string, Slots>, paths: seq<string>, ok: bool)

  /** The eviction loop: unlink the patch file, then delete the entry; a
      name already gone raises KeyError after its unlink. */
  function Evict(hs: map<string, Slots>, names: seq<string>, rp: Option<string>, done: seq<string>): (r: EvictOut)
    decreases |names|
  {
    if names == [] then EvictOut(hs, done, true)
    else
      var p := PatchPath(rp, names[0]);
      if names[0] !in hs then EvictOut(hs, done + [p], false)
      else Evict(hs - {names[0]}, names[1..], rp, done + [p])
  }

  /** One block's lines appended to `acc`; `false` when an entry is missing
      (KeyError) or its slot is None (TypeError). */
  function BlockText(hs: map<string, Slots>, names: seq<string>, b: Block, acc: string): (r: (string, bool))
    decreases |names|
  {
    if names == [] then (acc, true)
    else if names[0] !in hs || SlotOf(hs[names[0]], b).None? then (acc, false)
    else BlockText(hs, names[1..], b, acc + BlockLine(SlotOf(hs[names[0]], b).value, names[0]))
  }

  /** What one `dump` produces: the text written (up to a crash), whether it
      completed, the ledger it leaves and the paths it tried to unlink. */
  datatype DumpOut = DumpOut(text: string, ok: bool, after: Ledger, unlinked: seq<string>)

  function Emit(header: string, L: Ledger, paths: seq<string>): DumpOut {
    var h := BlockText(L.history, L.order, HistoryBlock, header + HistoryKey + "\n");
    if !h.1 then DumpOut(h.0, false, L, paths)
    else
      var p := BlockText(L.history, L.order, PatchesBlock, h.0 + PatchesKey + "\n");
      DumpOut(p.0, p.1, L, paths)
  }

  function DumpSpec(L: Ledger, max: int, rp: Option<string>): DumpOut {
    var header := HeaderText(L);
    var n := |L.order|;
    if n > max then
      var c := Cut(n, max);
      var e := Evict(L.history, L.order[..c], rp, []);
      if !e.ok then DumpOut(header, false, L.(history := e.hs), e.paths)
      else Emit(header, L.(history := e.hs, order := L.order[c..]), e.paths)
    else Emit(header, L, [])
  }

  // ---------------------------------------------------------------------
  // The object

  class Updates {
    var canPath: Option<string>
    var current: Option<Identity>
    var history: map<string, Slots>
    var order: seq<string>
    var max: int
    var readpath: Option<string>

    function Model(): Ledger
      reads this
    {
      Ledger(canPath, current, history, order)
    }

    /** The field initialisation at the start of `__init__`. */
    constructor(readpath: Option<string>, max: int)
      ensures Model() == EmptyLedger
      ensures this.readpath == readpath && this.max == max
    {
      canPath := None;
      current := None;
      history := map[];
      order := [];
      this.max := max;
      this.readpath := readpath;
    }

    /** The reading part of `__init__`. */
    method Load(fs: FileSystem) returns (err: Option<LoadError>)
      requires Model() == EmptyLedger
      modifies this
      ensures max == old(max) && readpath == old(readpath)
      ensures err.None? ==> LoadSpec(fs.state, readpath) == Success(Model())
      ensures err.Some? ==> LoadSpec(fs.state, readpath) == Failure(err.value)
    {
      err := None;
      if readpath.None? || readpath.value == "" {
        return;
      }
      var c := Content(fs.state, IndexFile(readpath.value));
      if c.None? {
        return;
      }
      var lines := Lines(c.value);
      var i := 0;
      while i < |lines|
        invariant 0 <= i <= |lines|
        invariant max == old(max) && readpath == old(readpath)
        invariant err.None?
        invariant ParseFrom(lines, i, Model()) == LoadSpec(fs.state, readpath)
        decreases |lines| - i
      {
        var l := Words(lines[i]);
        if |l| == 0 {
          i := i + 1;
        } else if l[0] == HistoryKey || l[0] == PatchesKey {
          var b := if l[0] == HistoryKey then HistoryBlock else PatchesBlock;
          assert ParseFrom(lines, i, Model()) == ParseBlock(lines, i + 1, b, Model());
          var j;
          j, err := ReadHashs(lines, i + 1, b);
          if err.Some? {
            return;
          }
          i := j;
        } else {
          var acc := Model();
          if l[0] == CanonNameKey || l[0] == CanonKey {
            if |l| < 2 {
              return Some(IndexError(i));
            }
            canPath := Some(l[1]);
          }
          if l[0] == CurrentKey && |l| == 3 {
            var n := ParseInt(l[2]);
            if n.None? {
              return Some(ValueError(i));
            }
            current := Some(Identity(l[1], n.value));
          }
          i := i + 1;
        }
      }
    }

    /** `read_hashs`: the block lines from line `j0` on, up to the first
        line that does not start with a space. */
    method ReadHashs(lines: seq<string>, j0: nat, b: Block) returns (j: nat, err: Option<LoadError>)
      requires j0 <= |lines|
      modifies this
      ensures max == old(max) && readpath == old(readpath)
      ensures err.None? ==>
                && j0 <= j <= |lines| && (j == |lines| || !StartsWith(lines[j], " "))
                && ParseBlock(lines, j0, b, old(Model())) == ParseFrom(lines, j, Model())
      ensures err.Some? ==> ParseBlock(lines, j0, b, old(Model())) == Failure(err.value)
    {
      j := j0;
      err := None;
      while j < |lines| && StartsWith(lines[j], " ")
        invariant j0 <= j <= |lines|
        invariant max == old(max) && readpath == old(readpath)
        invariant ParseBlock(lines, j, b, Model()) == ParseBlock(lines, j0, b, old(Model()))
        decreases |lines| - j
      {
        var acc := Model();
        var t := Words(lines[j]);
        if |t| < 3 {
          return j, Some(IndexError(j));
        }
        var name := t[2];
        if name !in history {
          history := history[name := Slots(None, None)];
          order := order + [name];
        }
        var n := ParseInt(t[1]);
        if n.None? {
          return j, Some(ValueError(j));
        }
        history := history[name := SetSlot(history[name], b, Identity(t[0], n.value))];
        assert Model() == Record(acc, name, b, Identity(t[0], n.value));
        j := j + 1;
      }
    }

    /** The eviction loop of `dump` over the first `c` names of the order. */
    method EvictOldest(fs: FileSystem, c: nat) returns (ok: bool, ghost paths: seq<string>)
      requires c <= |order|
      modifies this, fs
      ensures max == old(max) && readpath == old(readpath) && order == old(order)
      ensures canPath == old(canPath) && current == old(current)
      ensures var e := Evict(old(history), order[..c], readpath, []);
              ok == e.ok && history == e.hs && paths == e.paths
              && fs.state == TryUnlinkAll(old(fs.state), paths)
    {
      paths := [];
      var k := 0;
      while k < c
        invariant 0 <= k <= c
        invariant max == old(max) && readpath == old(readpath) && order == old(order)
        invariant canPath == old(canPath) && current == old(current)
        invariant fs.state == TryUnlinkAll(old(fs.state), paths)
        invariant Evict(old(history), order[..c], readpath, []) == Evict(history, order[k..c], readpath, paths)
        decreases c - k
      {
        var h := order[k];
        assert order[k..c][1..] == order[k + 1..c];
        var p := PatchPath(readpath, h);
        fs.TryUnlink(p);
        assert (paths + [p])[..|paths|] == paths;
        paths := paths + [p];
        if h !in history {
          return false, paths;
        }
        history := history - {h};
        k := k + 1;
      }
      ok := true;
    }

    /** `dump`: writes the descriptor, evicting the oldest entries (and
        their patch files) beyond `max`. */
    method Dump(fs: FileSystem) returns (text: string, ok: bool)
      modifies this, fs
      ensures max == old(max) && readpath == old(readpath)
      ensures var d := DumpSpec(old(Model()), max, readpath);
              text == d.text && ok == d.ok && Model() == d.after
              && fs.state == TryUnlinkAll(old(fs.state), d.unlinked)
    {
      text := "";
      if canPath.Some? && canPath.value != "" {
        text := text + CanonLine(canPath.value);
      }
      if current.Some? {
        text := text + CurrentLine(current.value);
      }
      assert text == HeaderText(Model());
      var l := order;
      var cnt := |l|;
      if cnt > max {
        var c := Cut(cnt, max);
        var evicted, paths := EvictOldest(fs, c);
        if !evicted {
          return text, false;
        }
        l := l[c..];
        order := l;
      }
      var hs := history;
      text, ok := WriteBlock(hs, l, HistoryBlock, text + HistoryKey + "\n");
      if !ok {
        return;
      }
      text, ok := WriteBlock(hs, l, PatchesBlock, text + PatchesKey + "\n");
    }
  }

  /** One `for h in l: out.write(...)` loop of `dump`, appending to `acc`. */
  method WriteBlock(hs: map<string, Slots>, l: seq<string>, b: Block, acc: string) returns (text: string, ok: bool)
    ensures (text, ok) == BlockText(hs, l, b, acc)
  {
    text := acc;
    var k := 0;
    while k < |l|
      invariant 0 <= k <= |l|
      invariant BlockText(hs, l, b, acc) == BlockText(hs, l[k..], b, text)
      decreases |l| - k
    {
      var h := l[k];
      assert l[k..][1..] == l[k + 1..];
      if h !in hs || SlotOf(hs[h], b).None? {
        return text, false;
      }
      assert BlockText(hs, l[k..], b, text) == BlockText(hs, l[k + 1..], b, text + BlockLine(SlotOf(hs[h], b).value, h));
      text := text + BlockLine(SlotOf(hs[h], b).value, h);
      k := k + 1;
    }
    ok := true;
  }
}
