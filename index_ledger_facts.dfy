/** What `Updates.dump` and `Updates.__init__` promise about each other:
    the rotation bound, a second dump changing nothing, and reading back a
    dumped descriptor giving the ledger that was dumped. */
module IndexLedgerFacts {
  import opened Results
  import opened Text
  import opened IndexFs
  import opened IndexLedger

  /** A ledger the descriptor grammar can carry: every word a token, the
      order listing each entry once, and both slots of every entry set. */
  ghost predicate WF(L: Ledger) {
    && (L.canPath.None? || L.canPath.value == "" || IsToken(L.canPath.value))
    && (L.current.Some? ==> IsToken(L.current.value.digest))
    && Keyed(L)
    && forall n :: n in L.history ==>
         && IsToken(n)
         && L.history[n].before.Some? && IsToken(L.history[n].before.value.digest)
         && L.history[n].patch.Some? && IsToken(L.history[n].patch.value.digest)
  }

  /** An empty canonical path is never written, so it reads back as None. */
  function Normal(L: Ledger): Ledger {
    if L.canPath == Some("") then L.(canPath := None) else L
  }

  function PatchPaths(rp: Option<string>, names: seq<string>): (ps: seq<string>)
    ensures |ps| == |names|
  {
    if names == [] then [] else [PatchPath(rp, names[0])] + PatchPaths(rp, names[1..])
  }

  // ---------------------------------------------------------------------
  // Rotation

  /** Eviction that completes removes exactly the evicted names and tries
      to unlink exactly their patch files, in order; over distinct names
      that are all present it always completes. */
  lemma {:induction false} EvictEffect(hs: map<string, Slots>, names: seq<string>, rp: Option<string>, done: seq<string>)
    ensures var e := Evict(hs, names, rp, done);
            e.ok ==> e.hs == hs - (set n | n in names) && e.paths == done + PatchPaths(rp, names)
    ensures Unique(names) && (forall k :: 0 <= k < |names| ==> names[k] in hs) ==> Evict(hs, names, rp, done).ok
    decreases |names|
  {
    if names != [] {
      var n0 := names[0];
      var p := PatchPath(rp, n0);
      EvictEffect(hs - {n0}, names[1..], rp, done + [p]);
      var e := Evict(hs, names, rp, done);
      if e.ok {
        assert n0 in hs;
        assert (set n | n in names) == {n0} + (set n | n in names[1..]);
        assert (hs - {n0}) - (set n | n in names[1..]) == hs - (set n | n in names);
        assert done + [p] + PatchPaths(rp, names[1..]) == done + PatchPaths(rp, names);
      }
      if Unique(names) && (forall k :: 0 <= k < |names| ==> names[k] in hs) {
        UniqueTail(names);
        forall k | 0 <= k < |names[1..]|
          ensures names[1..][k] in hs - {n0}
        {
          assert names[1..][k] == names[k + 1];
          UniqueAt(names, k + 1, 0);
        }
      }
    }
  }

  /** Bounded rotation: with no more than `max` names nothing is evicted;
      otherwise a completed dump keeps the newest `max` names (none when
      `max` is negative), in order, drops the others from the table and
      unlinks their patch files. */
  lemma DumpRotation(L: Ledger, max: int, rp: Option<string>)
    ensures var d := DumpSpec(L, max, rp);
            |L.order| <= max ==> d.after == L && d.unlinked == []
    ensures var d := DumpSpec(L, max, rp);
            var c := if max >= 0 then |L.order| - max else |L.order|;
            d.ok && |L.order| > max ==>
              && d.after.order == L.order[c..]
              && |d.after.order| == (if max >= 0 then max else 0)
              && d.after.history == L.history - (set n | n in L.order[..c])
              && d.unlinked == PatchPaths(rp, L.order[..c])
              && d.after.canPath == L.canPath && d.after.current == L.current
  {
    if |L.order| > max {
      var c := Cut(|L.order|, max);
      EvictEffect(L.history, L.order[..c], rp, []);
    }
  }

  /** A second dump after a completed one evicts nothing, unlinks nothing,
      and writes the same text. */
  lemma DumpIdempotent(L: Ledger, max: int, rp: Option<string>)
    requires DumpSpec(L, max, rp).ok
    ensures var d := DumpSpec(L, max, rp);
            DumpSpec(d.after, max, rp) == DumpOut(d.text, true, d.after, [])
  {
    var d := DumpSpec(L, max, rp);
    DumpRotation(L, max, rp);
    var A := d.after;
    assert HeaderText(A) == HeaderText(L);
    if |A.order| > max {
      assert |A.order| == 0;
      assert A.order[..0] == [];
      assert A.order[0..] == A.order;
      assert A.(history := A.history, order := A.order) == A;
    }
  }

  // ---------------------------------------------------------------------
  // The text a well-formed ledger dumps to

  function HeaderLines(L: Ledger): seq<string> {
    (if L.canPath.Some? && L.canPath.value != "" then [CanonLine(L.canPath.value)] else [])
    + (if L.current.Some? then [CurrentLine(L.current.value)] else [])
  }

  /** Every name present, with its slot set, and the words tokens. */
  ghost predicate Present(hs: map<string, Slots>, names: seq<string>, b: Block) {
    forall k :: 0 <= k < |names| ==>
      && names[k] in hs && IsToken(names[k])
      && SlotOf(hs[names[k]], b).Some? && IsToken(SlotOf(hs[names[k]], b).value.digest)
  }

  function BlockLines(hs: map<string, Slots>, names: seq<string>, b: Block): (ls: seq<string>)
    requires forall k :: 0 <= k < |names| ==> names[k] in hs && SlotOf(hs[names[k]], b).Some?
    ensures |ls| == |names|
  {
    if names == [] then []
    else [BlockLine(SlotOf(hs[names[0]], b).value, names[0])] + BlockLines(hs, names[1..], b)
  }

  /** The `k`th block line is the line of the `k`th name. */
  lemma {:induction false} BlockLinesAt(hs: map<string, Slots>, names: seq<string>, b: Block, k: nat)
    requires forall k :: 0 <= k < |names| ==> names[k] in hs && SlotOf(hs[names[k]], b).Some?
    requires k < |names|
    ensures BlockLines(hs, names, b)[k] == BlockLine(SlotOf(hs[names[k]], b).value, names[k])
    decreases k
  {
    if k > 0 {
      BlockLinesAt(hs, names[1..], b, k - 1);
      assert names[1..][k - 1] == names[k];
    }
  }

  lemma {:induction false} BlockTextLines(hs: map<string, Slots>, names: seq<string>, b: Block, acc: string)
    requires forall k :: 0 <= k < |names| ==> names[k] in hs && SlotOf(hs[names[k]], b).Some?
    ensures BlockText(hs, names, b, acc) == (acc + Concat(BlockLines(hs, names, b)), true)
    decreases |names|
  {
    if names == [] {
      assert acc + "" == acc;
    } else {
      var line := BlockLine(SlotOf(hs[names[0]], b).value, names[0]);
      BlockTextLines(hs, names[1..], b, acc + line);
      var ls := BlockLines(hs, names, b);
      assert ls[0] == line;
      assert ls[1..] == BlockLines(hs, names[1..], b);
      assert Concat(ls) == line + Concat(ls[1..]);
      assert acc + line + Concat(ls[1..]) == acc + (line + Concat(ls[1..]));
    }
  }

  /** The descriptor's lines: header, History keyword and block, Patches
      keyword and block. */
  function Layout(H: seq<string>, B0: seq<string>, B1: seq<string>): seq<string> {
    H + [HistoryKey + "\n"] + B0 + [PatchesKey + "\n"] + B1
  }

  lemma LayoutIndex(H: seq<string>, B0: seq<string>, B1: seq<string>)
    ensures var ls := Layout(H, B0, B1);
            && |ls| == |H| + 2 + |B0| + |B1|
            && (forall k :: 0 <= k < |H| ==> ls[k] == H[k])
            && ls[|H|] == HistoryKey + "\n"
            && (forall k :: 0 <= k < |B0| ==> ls[|H| + 1 + k] == B0[k])
            && ls[|H| + 1 + |B0|] == PatchesKey + "\n"
            && (forall k :: 0 <= k < |B1| ==> ls[|H| + 1 + |B0| + 1 + k] == B1[k])
  {
    var p1 := H + [HistoryKey + "\n"];
    var p2 := p1 + B0;
    var p3 := p2 + [PatchesKey + "\n"];
    assert forall k :: 0 <= k < |B0| ==> p2[|H| + 1 + k] == B0[k];
    assert forall k :: 0 <= k < |H| ==> p3[k] == H[k];
  }

  ghost function RenderLines(L: Ledger): seq<string>
    requires WF(L)
  {
    Layout(HeaderLines(L), BlockLines(L.history, L.order, HistoryBlock), BlockLines(L.history, L.order, PatchesBlock))
  }

  lemma ConcatSingle(x: string)
    ensures Concat([x]) == x
  {
    assert [x][1..] == [];
  }

  lemma HeaderConcat(L: Ledger)
    ensures Concat(HeaderLines(L)) == HeaderText(L)
  {
    var a := if L.canPath.Some? && L.canPath.value != "" then [CanonLine(L.canPath.value)] else [];
    var b := if L.current.Some? then [CurrentLine(L.current.value)] else [];
    ConcatAppend(a, b);
    if a != [] {
      ConcatSingle(a[0]);
    }
    if b != [] {
      ConcatSingle(b[0]);
    }
  }

  /** What `dump` writes when every slot is set is the rendered lines. */
  lemma EmitWF(L: Ledger, ps: seq<string>)
    requires WF(L)
    ensures Emit(HeaderText(L), L, ps) == DumpOut(Concat(RenderLines(L)), true, L, ps)
  {
    PresentWF(L, HistoryBlock);
    PresentWF(L, PatchesBlock);
    var H := HeaderLines(L);
    var B0 := BlockLines(L.history, L.order, HistoryBlock);
    var B1 := BlockLines(L.history, L.order, PatchesBlock);
    var ls := RenderLines(L);
    assert ls == Layout(H, B0, B1);
    var ht := HeaderText(L);
    HeaderConcat(L);
    BlockTextLines(L.history, L.order, HistoryBlock, ht + HistoryKey + "\n");
    var t0 := ht + HistoryKey + "\n" + Concat(B0);
    BlockTextLines(L.history, L.order, PatchesBlock, t0 + PatchesKey + "\n");
    LayoutConcat(H, B0, B1);
  }

  /** The text of the layout: header, keyword, block, keyword, block. */
  lemma LayoutConcat(H: seq<string>, B0: seq<string>, B1: seq<string>)
    ensures Concat(Layout(H, B0, B1))
            == Concat(H) + HistoryKey + "\n" + Concat(B0) + PatchesKey + "\n" + Concat(B1)
  {
    var x := HistoryKey + "\n";
    var y := PatchesKey + "\n";
    ConcatAppend(H, [x]);
    ConcatAppend(H + [x], B0);
    ConcatAppend(H + [x] + B0, [y]);
    ConcatAppend(H + [x] + B0 + [y], B1);
    ConcatSingle(x);
    ConcatSingle(y);
    Assoc2Keys(Concat(H), HistoryKey, Concat(B0), PatchesKey, Concat(B1));
  }

  lemma Assoc2Keys(a: string, k0: string, b: string, k1: string, c: string)
    ensures a + (k0 + "\n") + b + (k1 + "\n") + c == a + k0 + "\n" + b + k1 + "\n" + c
  {
  }

  // ---------------------------------------------------------------------
  // Every rendered piece is a line, and reads back as the words written

  lemma KeyFacts()
    ensures IsToken(CanonKey) && IsToken(CurrentKey) && IsToken(HistoryKey) && IsToken(PatchesKey)
    ensures CanonKey != HistoryKey && CanonKey != PatchesKey && CanonKey != CurrentKey
    ensures CurrentKey != HistoryKey && CurrentKey != PatchesKey && CurrentKey != CanonNameKey
    ensures CanonKey[0] != ' ' && CurrentKey[0] != ' ' && HistoryKey[0] != ' ' && PatchesKey[0] != ' '
  {
    assert CanonKey[0] != HistoryKey[0] && CanonKey[0] != CurrentKey[0];
    assert CurrentKey[5] != HistoryKey[5] && CurrentKey[5] != PatchesKey[5];
    assert CurrentKey[0] != CanonNameKey[0];
  }

  lemma TokenNoNewline(t: string)
    requires IsToken(t)
    ensures NoChar(t, '\n')
  {
  }

  lemma WordsNewline()
    ensures Words("\n") == []
  {
    assert "\n"[1..] == [];
  }

  /** A keyword line. */
  lemma KeywordWords(k: string)
    requires IsToken(k)
    ensures Words(k + "\n") == [k] && IsLine(k + "\n")
  {
    WordsToken(k, "\n");
    WordsNewline();
    TokenNoNewline(k);
    LineOf(k);
  }

  /** `a b` */
  lemma LineWords2(a: string, b: string)
    requires IsToken(a) && IsToken(b)
    ensures Words(a + " " + b + "\n") == [a, b]
    ensures IsLine(a + " " + b + "\n")
  {
    var r1 := b + "\n";
    var r0 := " " + r1;
    Assoc4(a, " ", b, "\n");
    WordsToken(a, r0);
    WordsSkipSpace(" ", r1);
    WordsToken(b, "\n");
    WordsNewline();
    TokenNoNewline(a);
    TokenNoNewline(b);
    NoCharAppend(a, " ", '\n');
    NoCharAppend(a + " ", b, '\n');
    LineOf(a + " " + b);
  }

  lemma Assoc4(a: string, b: string, c: string, d: string)
    ensures a + b + c + d == a + (b + (c + d))
  {
  }

  /** `a b %7d` */
  lemma LineWords3(a: string, b: string, n: int)
    requires IsToken(a) && IsToken(b)
    ensures Words(a + " " + b + " " + FormatWidth7(n) + "\n") == [a, b, IntToString(n)]
  {
    var w := FormatWidth7(n);
    var r3 := w + "\n";
    var r2 := " " + r3;
    var r1 := b + r2;
    var r0 := " " + r1;
    Assoc5(a, " ", b, " ", w, "\n");
    WordsToken(a, r0);
    WordsSkipSpace(" ", r1);
    WordsToken(b, r2);
    WordsSkipSpace(" ", r3);
    WordsWidth7(n, "\n");
    WordsNewline();
  }

  lemma Line3IsLine(a: string, b: string, n: int)
    requires IsToken(a) && IsToken(b)
    ensures IsLine(a + " " + b + " " + FormatWidth7(n) + "\n")
  {
    var w := FormatWidth7(n);
    Width7NoNewline(n);
    NoNewline3(a, b, w);
    LineOf(a + " " + b + " " + w);
  }

  lemma Assoc5(a: string, b: string, c: string, d: string, e: string, f: string)
    ensures a + b + c + d + e + f == a + (b + (c + (d + (e + f))))
  {
  }

  lemma NoNewline3(a: string, b: string, w: string)
    requires IsToken(a) && IsToken(b) && NoChar(w, '\n')
    ensures NoChar(a + " " + b + " " + w, '\n')
  {
    TokenNoNewline(a);
    TokenNoNewline(b);
    NoCharAppend(a, " ", '\n');
    NoCharAppend(a + " ", b, '\n');
    NoCharAppend(a + " " + b, " ", '\n');
    NoCharAppend(a + " " + b + " ", w, '\n');
  }

  lemma BlockLineWords(id: Identity, name: string)
    requires IsToken(id.digest) && IsToken(name)
    ensures Words(BlockLine(id, name)) == [id.digest, IntToString(id.size), name]
  {
    var d := id.digest;
    var w := FormatWidth7(id.size);
    var r5 := name + "\n";
    var r4 := " " + r5;
    var r3 := w + r4;
    var r2 := " " + r3;
    var r1 := d + r2;
    Assoc7(" ", d, " ", w, " ", name, "\n");
    assert BlockLine(id, name) == " " + r1;
    WordsSkipSpace(" ", r1);
    WordsToken(d, r2);
    WordsSkipSpace(" ", r3);
    WordsWidth7(id.size, r4);
    WordsSkipSpace(" ", r5);
    WordsToken(name, "\n");
    WordsNewline();
  }

  lemma BlockLineIsLine(id: Identity, name: string)
    requires IsToken(id.digest) && IsToken(name)
    ensures IsLine(BlockLine(id, name)) && StartsWith(BlockLine(id, name), " ")
  {
    var d := id.digest;
    var w := FormatWidth7(id.size);
    Width7NoNewline(id.size);
    BlockBodyNoNewline(d, w, name);
    LineOf(" " + d + " " + w + " " + name);
  }

  lemma Assoc7(a: string, b: string, c: string, d: string, e: string, f: string, g: string)
    ensures a + b + c + d + e + f + g == a + (b + (c + (d + (e + (f + g)))))
  {
  }

  lemma BlockBodyNoNewline(d: string, w: string, name: string)
    requires IsToken(d) && IsToken(name) && NoChar(w, '\n')
    ensures NoChar(" " + d + " " + w + " " + name, '\n')
  {
    TokenNoNewline(d);
    TokenNoNewline(name);
    NoCharAppend(" ", d, '\n');
    NoCharAppend(" " + d, " ", '\n');
    NoCharAppend(" " + d + " ", w, '\n');
    NoCharAppend(" " + d + " " + w, " ", '\n');
    NoCharAppend(" " + d + " " + w + " ", name, '\n');
  }

  /** Every element of `ls` is one line. */
  ghost predicate AllLines(ls: seq<string>) {
    forall k :: 0 <= k < |ls| ==> IsLine(ls[k])
  }

  /** The layout of lines is lines. */
  lemma LayoutLines(H: seq<string>, B0: seq<string>, B1: seq<string>)
    requires AllLines(H) && AllLines(B0) && AllLines(B1)
    requires IsLine(HistoryKey + "\n") && IsLine(PatchesKey + "\n")
    ensures AllLines(Layout(H, B0, B1))
  {
    var ls := Layout(H, B0, B1);
    LayoutIndex(H, B0, B1);
    var h := |H|;
    var n0 := |B0|;
    forall k | 0 <= k < |ls|
      ensures IsLine(ls[k])
    {
      if k < h {
      } else if k == h {
      } else if k < h + 1 + n0 {
        assert ls[h + 1 + (k - h - 1)] == B0[k - h - 1];
      } else if k == h + 1 + n0 {
      } else {
        assert ls[h + 1 + n0 + 1 + (k - h - 2 - n0)] == B1[k - h - 2 - n0];
      }
    }
  }

  lemma RenderIsLines(L: Ledger)
    requires WF(L)
    ensures AllLines(RenderLines(L))
  {
    PresentWF(L, HistoryBlock);
    PresentWF(L, PatchesBlock);
    var H := HeaderLines(L);
    var B0 := BlockLines(L.history, L.order, HistoryBlock);
    var B1 := BlockLines(L.history, L.order, PatchesBlock);
    var ls := RenderLines(L);
    assert ls == Layout(H, B0, B1);
    HeaderRowsOf(L, H);
    BlockRowsOf(L.history, L.order, HistoryBlock);
    BlockRowsOf(L.history, L.order, PatchesBlock);
    KeyFacts();
    KeywordWords(HistoryKey);
    KeywordWords(PatchesKey);
    LayoutLines(H, B0, B1);
  }

  // ---------------------------------------------------------------------
  // Parsing the rendered lines

  /** What the parser sees of a block line: it is indented and its words
      are the digest, the size and the name. */
  ghost predicate RowIs(line: string, id: Identity, name: string) {
    StartsWith(line, " ") && Words(line) == [id.digest, IntToString(id.size), name]
  }

  /** What the parser sees of a keyword line. */
  ghost predicate KeyRow(line: string, key: string) {
    !StartsWith(line, " ") && Words(line) == [key]
  }

  lemma BlockRow(id: Identity, name: string)
    requires IsToken(id.digest) && IsToken(name)
    ensures RowIs(BlockLine(id, name), id, name)
  {
    BlockLineWords(id, name);
    BlockLineIsLine(id, name);
  }

  lemma KeyRowOf(k: string)
    requires IsToken(k) && k[0] != ' '
    ensures KeyRow(k + "\n", k)
  {
    KeywordWords(k);
    assert (k + "\n")[0] == k[0];
  }

  function RecordAll(acc: Ledger, names: seq<string>, b: Block, hs: map<string, Slots>): Ledger
    requires forall k :: 0 <= k < |names| ==> names[k] in hs && SlotOf(hs[names[k]], b).Some?
    decreases |names|
  {
    if names == [] then acc
    else RecordAll(Record(acc, names[0], b, SlotOf(hs[names[0]], b).value), names[1..], b, hs)
  }

  /** One block line reads back as the identity and name it was written from. */
  lemma ParseBlockStep(ls: seq<string>, j: nat, b: Block, acc: Ledger, id: Identity, name: string)
    requires j < |ls| && RowIs(ls[j], id, name)
    ensures ParseBlock(ls, j, b, acc) == ParseBlock(ls, j + 1, b, Record(acc, name, b, id))
  {
    ParseIntToString(id.size);
  }

  /** A line that is not indented ends the block. */
  lemma ParseBlockEnd(ls: seq<string>, j: nat, b: Block, acc: Ledger)
    requires j <= |ls|
    requires j == |ls| || !StartsWith(ls[j], " ")
    ensures ParseBlock(ls, j, b, acc) == ParseFrom(ls, j, acc)
  {
  }

  /** A run of block lines, ended by the end of the file or by a line that
      is not indented, records each name in turn. */
  lemma {:induction false} ParseBlockLines(ls: seq<string>, j: nat, b: Block, acc: Ledger,
                                           hs: map<string, Slots>, names: seq<string>)
    requires forall k :: 0 <= k < |names| ==> names[k] in hs && SlotOf(hs[names[k]], b).Some?
    requires j + |names| <= |ls|
    requires forall k :: 0 <= k < |names| ==> RowIs(ls[j + k], SlotOf(hs[names[k]], b).value, names[k])
    requires j + |names| == |ls| || !StartsWith(ls[j + |names|], " ")
    ensures ParseBlock(ls, j, b, acc) == ParseFrom(ls, j + |names|, RecordAll(acc, names, b, hs))
    decreases |names|
  {
    if names == [] {
      assert RecordAll(acc, names, b, hs) == acc;
      ParseBlockEnd(ls, j + |names|, b, acc);
    } else {
      var id := SlotOf(hs[names[0]], b).value;
      var acc1 := Record(acc, names[0], b, id);
      TailRows(ls, j, b, hs, names);
      ParseBlockLines(ls, j + 1, b, acc1, hs, names[1..]);
      ParseBlockHead(ls, j, b, acc, hs, names);
    }
  }

  /** The rows after the first row of a block line up with the names after
      the first name. */
  lemma TailRows(ls: seq<string>, j: nat, b: Block, hs: map<string, Slots>, names: seq<string>)
    requires forall k :: 0 <= k < |names| ==> names[k] in hs && SlotOf(hs[names[k]], b).Some?
    requires names != [] && j + |names| <= |ls|
    requires forall k :: 0 <= k < |names| ==> RowIs(ls[j + k], SlotOf(hs[names[k]], b).value, names[k])
    ensures forall k :: 0 <= k < |names[1..]| ==> names[1..][k] in hs && SlotOf(hs[names[1..][k]], b).Some?
    ensures forall k :: 0 <= k < |names[1..]| ==>
              RowIs(ls[j + 1 + k], SlotOf(hs[names[1..][k]], b).value, names[1..][k])
  {
    var rest := names[1..];
    forall k | 0 <= k < |rest|
      ensures rest[k] in hs && SlotOf(hs[rest[k]], b).Some?
      ensures RowIs(ls[j + 1 + k], SlotOf(hs[rest[k]], b).value, rest[k])
    {
      assert rest[k] == names[k + 1];
      assert j + 1 + k == j + (k + 1);
    }
  }

  /** The first row of a block records the first name. */
  lemma ParseBlockHead(ls: seq<string>, j: nat, b: Block, acc: Ledger, hs: map<string, Slots>, names: seq<string>)
    requires forall k :: 0 <= k < |names| ==> names[k] in hs && SlotOf(hs[names[k]], b).Some?
    requires names != [] && j + |names| <= |ls|
    requires RowIs(ls[j], SlotOf(hs[names[0]], b).value, names[0])
    ensures var acc1 := Record(acc, names[0], b, SlotOf(hs[names[0]], b).value);
            && ParseBlock(ls, j, b, acc) == ParseBlock(ls, j + 1, b, acc1)
            && RecordAll(acc, names, b, hs) == RecordAll(acc1, names[1..], b, hs)
            && j + 1 + |names[1..]| == j + |names|
  {
    ParseBlockStep(ls, j, b, acc, SlotOf(hs[names[0]], b).value, names[0]);
  }

  /** The tail of a list without repeats has none either and lacks the head. */
  lemma UniqueTail(names: seq<string>)
    requires Unique(names) && names != []
    ensures Unique(names[1..]) && names[0] !in names[1..]
  {
    var rest := names[1..];
    forall i, j | 0 <= i < j < |rest|
      ensures Distinct(rest, i, j)
    {
      assert rest[i] == names[i + 1] && rest[j] == names[j + 1];
      UniqueAt(names, i + 1, j + 1);
    }
    forall k | 0 <= k < |rest|
      ensures rest[k] != names[0]
    {
      assert rest[k] == names[k + 1];
      UniqueAt(names, k + 1, 0);
    }
  }

  lemma InCons(names: seq<string>)
    requires names != []
    ensures forall n :: n in names <==> n == names[0] || n in names[1..]
  {
    assert names == [names[0]] + names[1..];
  }

  lemma RecordNewStep(acc: Ledger, n0: string, id: Identity, rest: seq<string>)
    requires n0 !in acc.history
    requires forall k :: 0 <= k < |rest| ==> rest[k] !in acc.history && rest[k] != n0
    ensures var acc1 := Record(acc, n0, HistoryBlock, id);
            && acc1.history == acc.history[n0 := Slots(Some(id), None)]
            && acc1.order == acc.order + [n0]
            && acc1.canPath == acc.canPath && acc1.current == acc.current
            && forall k :: 0 <= k < |rest| ==> rest[k] !in acc1.history
  {
  }

  /** The History block adds each name, in order, to a table that lacked it. */
  lemma {:induction false} RecordAllNew(acc: Ledger, names: seq<string>, hs: map<string, Slots>)
    requires forall k :: 0 <= k < |names| ==> names[k] in hs && hs[names[k]].before.Some?
    requires Unique(names)
    requires forall k :: 0 <= k < |names| ==> names[k] !in acc.history
    ensures var R := RecordAll(acc, names, HistoryBlock, hs);
            && R.order == acc.order + names
            && R.canPath == acc.canPath && R.current == acc.current
            && (forall n :: n in R.history <==> n in acc.history || n in names)
            && (forall n :: n in acc.history ==> R.history[n] == acc.history[n])
            && (forall n :: n in names ==> R.history[n] == Slots(hs[n].before, None))
    decreases |names|
  {
    if names != [] {
      var n0 := names[0];
      var rest := names[1..];
      UniqueTail(names);
      InCons(names);
      assert forall k :: 0 <= k < |rest| ==> rest[k] == names[k + 1];
      RecordNewStep(acc, n0, hs[n0].before.value, rest);
      var acc1 := Record(acc, n0, HistoryBlock, hs[n0].before.value);
      RecordAllNew(acc1, rest, hs);
      assert RecordAll(acc, names, HistoryBlock, hs) == RecordAll(acc1, rest, HistoryBlock, hs);
      NewStepCombine(acc, acc1, names, hs, RecordAll(acc1, rest, HistoryBlock, hs));
    }
  }

  /** The effect of the first name of the History block followed by the
      effect of the rest is the effect of the whole block. */
  lemma NewStepCombine(acc: Ledger, acc1: Ledger, names: seq<string>, hs: map<string, Slots>, R: Ledger)
    requires names != [] && names[0] in hs && names[0] !in acc.history
    requires acc1.history == acc.history[names[0] := Slots(hs[names[0]].before, None)]
    requires acc1.order == acc.order + [names[0]]
    requires acc1.canPath == acc.canPath && acc1.current == acc.current
    requires R.order == acc1.order + names[1..]
    requires R.canPath == acc1.canPath && R.current == acc1.current
    requires forall n :: n in R.history <==> n in acc1.history || n in names[1..]
    requires forall n :: n in acc1.history ==> R.history[n] == acc1.history[n]
    requires forall n :: n in names[1..] ==> n in hs && R.history[n] == Slots(hs[n].before, None)
    ensures R.order == acc.order + names
    ensures R.canPath == acc.canPath && R.current == acc.current
    ensures forall n :: n in R.history <==> n in acc.history || n in names
    ensures forall n :: n in acc.history ==> R.history[n] == acc.history[n]
    ensures forall n :: n in names ==> R.history[n] == Slots(hs[n].before, None)
  {
    InCons(names);
    assert acc.order + [names[0]] + names[1..] == acc.order + names;
  }

  /** The Patches block fills slot 1 of names already present. */
  lemma {:induction false} RecordAllExisting(acc: Ledger, names: seq<string>, hs: map<string, Slots>)
    requires forall k :: 0 <= k < |names| ==> names[k] in hs && hs[names[k]].patch.Some?
    requires forall k :: 0 <= k < |names| ==> names[k] in acc.history
    ensures var R := RecordAll(acc, names, PatchesBlock, hs);
            && R.order == acc.order
            && R.canPath == acc.canPath && R.current == acc.current
            && (forall n :: n in R.history <==> n in acc.history)
            && (forall n :: n in acc.history && n !in names ==> R.history[n] == acc.history[n])
            && (forall n :: n in names ==> R.history[n] == Slots(acc.history[n].before, hs[n].patch))
    decreases |names|
  {
    if names != [] {
      var n0 := names[0];
      var rest := names[1..];
      var acc1 := Record(acc, n0, PatchesBlock, hs[n0].patch.value);
      assert acc1.history == acc.history[n0 := Slots(acc.history[n0].before, hs[n0].patch)];
      forall k | 0 <= k < |rest|
        ensures rest[k] in acc1.history
      {
        assert rest[k] == names[k + 1];
      }
      RecordAllExisting(acc1, rest, hs);
      forall n | n in names
        ensures n == n0 || n in rest
      {
        var k :| 0 <= k < |names| && names[k] == n;
        if k > 0 {
          assert rest[k - 1] == n;
        }
      }
    }
  }

  /** A keyword line opens its block. */
  lemma KeywordStep(ls: seq<string>, i: nat, acc: Ledger, b: Block)
    requires i < |ls| && KeyRow(ls[i], if b == HistoryBlock then HistoryKey else PatchesKey)
    ensures ParseFrom(ls, i, acc) == ParseBlock(ls, i + 1, b, acc)
  {
    KeyFacts();
  }

  lemma CanonStep(ls: seq<string>, i: nat, acc: Ledger, p: string)
    requires i < |ls| && Words(ls[i]) == [CanonKey, p]
    ensures ParseFrom(ls, i, acc) == ParseFrom(ls, i + 1, acc.(canPath := Some(p)))
  {
    KeyFacts();
  }

  lemma CurrentStep(ls: seq<string>, i: nat, acc: Ledger, id: Identity)
    requires i < |ls| && Words(ls[i]) == [CurrentKey, id.digest, IntToString(id.size)]
    ensures ParseFrom(ls, i, acc) == ParseFrom(ls, i + 1, acc.(current := Some(id)))
  {
    KeyFacts();
    ParseIntToString(id.size);
  }

  predicate Canon(L: Ledger) {
    L.canPath.Some? && L.canPath.value != ""
  }

  function HeaderCount(L: Ledger): nat {
    (if Canon(L) then 1 else 0) + (if L.current.Some? then 1 else 0)
  }

  /** The header fields as the parser collects them. */
  function HeaderFields(L: Ledger): Ledger {
    EmptyLedger.(canPath := Normal(L).canPath, current := L.current)
  }

  /** What the parser sees of the header lines. */
  ghost predicate HeaderRows(L: Ledger, ls: seq<string>) {
    && HeaderCount(L) <= |ls|
    && (Canon(L) ==> Words(ls[0]) == [CanonKey, L.canPath.value])
    && (L.current.Some? ==>
          Words(ls[HeaderCount(L) - 1]) == [CurrentKey, L.current.value.digest, IntToString(L.current.value.size)])
  }

  lemma ParseHeader(L: Ledger, ls: seq<string>)
    requires HeaderRows(L, ls)
    ensures ParseFrom(ls, 0, EmptyLedger) == ParseFrom(ls, HeaderCount(L), HeaderFields(L))
  {
    if Canon(L) {
      var acc0 := EmptyLedger.(canPath := L.canPath);
      CanonStep(ls, 0, EmptyLedger, L.canPath.value);
      if L.current.Some? {
        CurrentStep(ls, 1, acc0, L.current.value);
        assert acc0.(current := L.current) == HeaderFields(L);
      } else {
        assert acc0 == HeaderFields(L);
      }
    } else if L.current.Some? {
      CurrentStep(ls, 0, EmptyLedger, L.current.value);
      assert EmptyLedger.(current := L.current) == HeaderFields(L);
    } else {
      assert EmptyLedger == HeaderFields(L);
    }
  }

  /** What the parser sees of both blocks, from the History keyword on. */
  ghost predicate BlockRows(hs: map<string, Slots>, names: seq<string>, ls: seq<string>, i: nat)
    requires Present(hs, names, HistoryBlock) && Present(hs, names, PatchesBlock)
  {
    var n := |names|;
    && |ls| == i + 2 + n + n
    && KeyRow(ls[i], HistoryKey)
    && (forall k :: 0 <= k < n ==> RowIs(ls[i + 1 + k], SlotOf(hs[names[k]], HistoryBlock).value, names[k]))
    && KeyRow(ls[i + 1 + n], PatchesKey)
    && (forall k :: 0 <= k < n ==> RowIs(ls[i + 1 + n + 1 + k], SlotOf(hs[names[k]], PatchesBlock).value, names[k]))
  }

  lemma ParseBlocks(hs: map<string, Slots>, names: seq<string>, ls: seq<string>, i: nat, acc: Ledger)
    requires Present(hs, names, HistoryBlock) && Present(hs, names, PatchesBlock)
    requires BlockRows(hs, names, ls, i)
    ensures ParseFrom(ls, i, acc)
            == Success(RecordAll(RecordAll(acc, names, HistoryBlock, hs), names, PatchesBlock, hs))
  {
    var n := |names|;
    var R1 := RecordAll(acc, names, HistoryBlock, hs);
    var R2 := RecordAll(R1, names, PatchesBlock, hs);
    ParseOneBlock(hs, names, ls, i + 1 + n, R1, PatchesBlock);
    assert ParseFrom(ls, i + 1 + n + 1 + n, R2) == Success(R2);
    ParseOneBlock(hs, names, ls, i, acc, HistoryBlock);
  }

  /** A keyword line and the block lines after it record the block. */
  lemma ParseOneBlock(hs: map<string, Slots>, names: seq<string>, ls: seq<string>, i: nat, acc: Ledger, b: Block)
    requires forall k :: 0 <= k < |names| ==> names[k] in hs && SlotOf(hs[names[k]], b).Some?
    requires i + 1 + |names| <= |ls|
    requires KeyRow(ls[i], if b == HistoryBlock then HistoryKey else PatchesKey)
    requires forall k :: 0 <= k < |names| ==> RowIs(ls[i + 1 + k], SlotOf(hs[names[k]], b).value, names[k])
    requires i + 1 + |names| == |ls| || !StartsWith(ls[i + 1 + |names|], " ")
    ensures ParseFrom(ls, i, acc) == ParseFrom(ls, i + 1 + |names|, RecordAll(acc, names, b, hs))
  {
    ParseBlockLines(ls, i + 1, b, acc, hs, names);
    KeywordStep(ls, i, acc, b);
  }

  /** Recording both blocks of a well-formed ledger over its header fields
      rebuilds the ledger. */
  lemma RecordBoth(L: Ledger)
    requires WF(L)
    ensures RecordAll(RecordAll(HeaderFields(L), L.order, HistoryBlock, L.history), L.order, PatchesBlock, L.history)
            == Normal(L)
  {
    var hs := L.history;
    var accH := HeaderFields(L);
    RecordAllNew(accH, L.order, hs);
    var R1 := RecordAll(accH, L.order, HistoryBlock, hs);
    RecordAllExisting(R1, L.order, hs);
    var R2 := RecordAll(R1, L.order, PatchesBlock, hs);
    SameHistory(L, R1, R2);
    assert R2.order == L.order;
  }

  lemma SameHistory(L: Ledger, R1: Ledger, R2: Ledger)
    requires WF(L)
    requires forall n :: n in R1.history <==> n in L.order
    requires forall n :: n in L.order ==> R1.history[n] == Slots(L.history[n].before, None)
    requires forall n :: n in R2.history <==> n in R1.history
    requires forall n :: n in L.order ==> R2.history[n] == Slots(R1.history[n].before, L.history[n].patch)
    ensures R2.history == L.history
  {
    var hs := L.history;
    forall n | n in hs
      ensures n in L.order
    {
    }
    forall n | n in R2.history
      ensures n in hs && R2.history[n] == hs[n]
    {
    }
  }

  lemma PresentWF(L: Ledger, b: Block)
    requires WF(L)
    ensures Present(L.history, L.order, b)
  {
  }

  /** The rendered lines, as the parser sees them. */
  lemma RenderRows(L: Ledger)
    requires WF(L)
    ensures Present(L.history, L.order, HistoryBlock) && Present(L.history, L.order, PatchesBlock)
    ensures HeaderRows(L, RenderLines(L))
    ensures BlockRows(L.history, L.order, RenderLines(L), HeaderCount(L))
  {
    PresentWF(L, HistoryBlock);
    PresentWF(L, PatchesBlock);
    var H := HeaderLines(L);
    var B0 := BlockLines(L.history, L.order, HistoryBlock);
    var B1 := BlockLines(L.history, L.order, PatchesBlock);
    var ls := RenderLines(L);
    assert ls == Layout(H, B0, B1);
    HeaderRowsOf(L, H);
    KeyFacts();
    KeyRowOf(HistoryKey);
    KeyRowOf(PatchesKey);
    BlockRowsOf(L.history, L.order, HistoryBlock);
    BlockRowsOf(L.history, L.order, PatchesBlock);
    LayoutRows(L, H, B0, B1);
  }

  /** The layout of pieces the parser reads correctly, read as a whole. */
  lemma LayoutRows(L: Ledger, H: seq<string>, B0: seq<string>, B1: seq<string>)
    requires Present(L.history, L.order, HistoryBlock) && Present(L.history, L.order, PatchesBlock)
    requires |H| == HeaderCount(L) && HeaderRows(L, H)
    requires |B0| == |L.order| && |B1| == |L.order|
    requires KeyRow(HistoryKey + "\n", HistoryKey) && KeyRow(PatchesKey + "\n", PatchesKey)
    requires forall k :: 0 <= k < |L.order| ==>
               RowIs(B0[k], SlotOf(L.history[L.order[k]], HistoryBlock).value, L.order[k])
    requires forall k :: 0 <= k < |L.order| ==>
               RowIs(B1[k], SlotOf(L.history[L.order[k]], PatchesBlock).value, L.order[k])
    ensures HeaderRows(L, Layout(H, B0, B1))
    ensures BlockRows(L.history, L.order, Layout(H, B0, B1), |H|)
  {
    var ls := Layout(H, B0, B1);
    LayoutIndex(H, B0, B1);
    var h := |H|;
    var n := |L.order|;
    assert forall k :: 0 <= k < n ==> ls[h + 1 + k] == B0[k];
    assert forall k :: 0 <= k < n ==> ls[h + 1 + n + 1 + k] == B1[k];
  }

  lemma HeaderRowsOf(L: Ledger, ls: seq<string>)
    requires WF(L)
    requires |HeaderLines(L)| <= |ls|
    requires forall k :: 0 <= k < |HeaderLines(L)| ==> ls[k] == HeaderLines(L)[k]
    ensures |HeaderLines(L)| == HeaderCount(L) && HeaderRows(L, ls)
    ensures AllLines(HeaderLines(L))
  {
    KeyFacts();
    var H := HeaderLines(L);
    if Canon(L) {
      assert ls[0] == H[0] == CanonLine(L.canPath.value);
      LineWords2(CanonKey, L.canPath.value);
    }
    if L.current.Some? {
      var id := L.current.value;
      assert ls[|H| - 1] == H[|H| - 1] == CurrentLine(id);
      LineWords3(CurrentKey, id.digest, id.size);
      Line3IsLine(CurrentKey, id.digest, id.size);
    }
  }

  /** Each block line reads back as its digest, size and name, and is one line. */
  lemma BlockRowsOf(hs: map<string, Slots>, names: seq<string>, b: Block)
    requires Present(hs, names, b)
    ensures forall k :: 0 <= k < |names| ==>
              RowIs(BlockLines(hs, names, b)[k], SlotOf(hs[names[k]], b).value, names[k])
    ensures AllLines(BlockLines(hs, names, b))
  {
    var B := BlockLines(hs, names, b);
    forall k | 0 <= k < |names|
      ensures RowIs(B[k], SlotOf(hs[names[k]], b).value, names[k]) && IsLine(B[k])
    {
      var id := SlotOf(hs[names[k]], b).value;
      BlockLinesAt(hs, names, b, k);
      BlockRow(id, names[k]);
      BlockLineIsLine(id, names[k]);
    }
  }

  lemma ParseRender(L: Ledger)
    requires WF(L)
    ensures ParseIndex(RenderLines(L)) == Success(Normal(L))
  {
    var ls := RenderLines(L);
    RecordBoth(L);
    RenderRows(L);
    ParseBlocks(L.history, L.order, ls, HeaderCount(L), HeaderFields(L));
    ParseHeader(L, ls);
  }

  /** Reading back what a dump of a well-formed ledger wrote gives the
      ledger the dump left (an empty canonical path reads back as None),
      and that ledger is well formed again. */
  lemma DumpRoundTrip(L: Ledger, max: int, rp: Option<string>)
    requires WF(L)
    ensures var d := DumpSpec(L, max, rp);
            d.ok && WF(d.after) && ParseIndex(Lines(d.text)) == Success(Normal(d.after))
  {
    if |L.order| > max {
      var c := Cut(|L.order|, max);
      PrefixEvicts(L, c, rp);
      SuffixKeyed(L, c);
      var e := Evict(L.history, L.order[..c], rp, []);
      var A := L.(history := e.hs, order := L.order[c..]);
      assert HeaderText(A) == HeaderText(L);
      EmitRoundTrip(A, e.paths);
    } else {
      EmitRoundTrip(L, []);
    }
  }

  /** Evicting the oldest `c` names of a well-formed ledger completes. */
  lemma PrefixEvicts(L: Ledger, c: nat, rp: Option<string>)
    requires WF(L) && c <= |L.order|
    ensures var e := Evict(L.history, L.order[..c], rp, []);
            e.ok && e.hs == L.history - (set n | n in L.order[..c])
  {
    EvictEffect(L.history, L.order[..c], rp, []);
    assert Unique(L.order[..c]) by {
      forall i, j | 0 <= i < j < c ensures Distinct(L.order[..c], i, j) {
        assert L.order[..c][i] == L.order[i] && L.order[..c][j] == L.order[j];
        UniqueAt(L.order, i, j);
      }
    }
  }

  /** Writing out a well-formed ledger completes and reads back. */
  lemma EmitRoundTrip(A: Ledger, ps: seq<string>)
    requires WF(A)
    ensures var d := Emit(HeaderText(A), A, ps);
            d.ok && d.after == A && ParseIndex(Lines(d.text)) == Success(Normal(A))
  {
    EmitWF(A, ps);
    RenderIsLines(A);
    LinesOfConcat(RenderLines(A));
    ParseRender(A);
  }

  /** Dropping the first `c` names keeps a well-formed ledger. */
  lemma SuffixKeyed(L: Ledger, c: nat)
    requires WF(L) && c <= |L.order|
    ensures WF(L.(history := L.history - (set n | n in L.order[..c]), order := L.order[c..]))
  {
    var gone := set n | n in L.order[..c];
    var A := L.(history := L.history - gone, order := L.order[c..]);
    forall i, j | 0 <= i < j < |A.order|
      ensures Distinct(A.order, i, j)
    {
      assert A.order[i] == L.order[c + i] && A.order[j] == L.order[c + j];
      UniqueAt(L.order, c + i, c + j);
    }
    forall n | n in A.order
      ensures n in A.history
    {
      var k :| 0 <= k < |A.order| && A.order[k] == n;
      assert L.order[c + k] == n;
      forall m | 0 <= m < c
        ensures L.order[..c][m] != n
      {
        assert L.order[..c][m] == L.order[m];
        UniqueAt(L.order, m, c + k);
      }
    }
    forall n | n in A.history
      ensures n in A.order
    {
      var k :| 0 <= k < |L.order| && L.order[k] == n;
      forall m | 0 <= m < c
        ensures L.order[m] != n
      {
        assert L.order[..c][m] == L.order[m];
      }
      assert A.order[k - c] == n;
    }
  }
}
