/** What one run of `genchanges` guarantees: the inode table stays valid,
    `Index` is only rewritten when a change is published, a published
    change reads back from `Index`, and a second run over the same files
    finds the hard link unbroken and does nothing. */
module IndexGenChangesFacts {
  import opened Results
  import opened Text
  import opened IndexFs
  import opened IndexLedger
  import opened IndexLedgerFacts
  import opened IndexGenChanges

  // ---------------------------------------------------------------------
  // Frames

  /** `q` names the same inode, or nothing, in both states. */
  ghost predicate SameAt(a: Fs, b: Fs, q: string) {
    && (q in a.names <==> q in b.names)
    && (q in a.names ==> a.names[q] == b.names[q])
  }

  /** The three names `smartstat` probes agree. */
  ghost predicate SameVariants(a: Fs, b: Fs, f: string) {
    SameAt(a, b, f) && SameAt(a, b, f + ".gz") && SameAt(a, b, f + ".bz2")
  }

  lemma SmartStatSame(a: Fs, b: Fs, f: string)
    requires SameVariants(a, b, f)
    ensures SmartStat(a, f) == SmartStat(b, f)
  {
    assert f + "" == f;
  }

  lemma {:induction false} TryUnlinkAllNames(fs: Fs, ps: seq<string>, q: string)
    requires forall i :: 0 <= i < |ps| ==> ps[i] != q
    ensures SameAt(TryUnlinkAll(fs, ps), fs, q)
    decreases |ps|
  {
    if ps != [] {
      TryUnlinkAllNames(fs, ps[..|ps| - 1], q);
    }
  }

  lemma {:induction false} PatchPathsAt(rp: Option<string>, names: seq<string>, k: int)
    requires 0 <= k < |names|
    ensures PatchPaths(rp, names)[k] == PatchPath(rp, names[k])
    decreases |names|
  {
    if k > 0 {
      PatchPathsAt(rp, names[1..], k - 1);
    }
  }

  /** Every path a completed `dump` unlinks is the patch file of some name. */
  lemma UnlinkedArePatches(L: Ledger, max: int, rp: Option<string>)
    requires DumpSpec(L, max, rp).ok
    ensures var d := DumpSpec(L, max, rp);
            forall i :: 0 <= i < |d.unlinked| ==> exists h :: d.unlinked[i] == PatchPath(rp, h)
  {
    DumpRotation(L, max, rp);
    var d := DumpSpec(L, max, rp);
    forall i | 0 <= i < |d.unlinked|
      ensures exists h :: d.unlinked[i] == PatchPath(rp, h)
    {
      var c := if max >= 0 then |L.order| - max else |L.order|;
      PatchPathsAt(rp, L.order[..c], i);
    }
  }

  /** Rewriting `Index` touches no other name, save the patch files `dump`
      removes. */
  lemma WriteIndexNames(fs: Fs, outdir: string, d: DumpOut, q: string)
    requires q != IndexFile(outdir)
    requires forall i :: 0 <= i < |d.unlinked| ==> d.unlinked[i] != q
    ensures SameAt(WriteIndex(fs, outdir, d), fs, q)
  {
    TryUnlinkAllNames(WriteFs(fs, IndexFile(outdir), ""), d.unlinked, q);
  }

  // ---------------------------------------------------------------------
  // Validity

  lemma WriteIndexValid(fs: Fs, outdir: string, d: DumpOut)
    requires Valid(fs)
    ensures Valid(WriteIndex(fs, outdir, d))
  {
    var idx := IndexFile(outdir);
    PrimitivesKeepValid(fs, idx, idx, "");
    TryUnlinkAllValid(WriteFs(fs, idx, ""), d.unlinked);
    PrimitivesKeepValid(TryUnlinkAll(WriteFs(fs, idx, ""), d.unlinked), idx, idx, d.text);
  }

  lemma ReplaceValid(fs: Fs, oldfile: string, origfile: string, oldext: string, origext: string)
    requires Valid(fs)
    ensures Valid(Replace(fs, oldfile, origfile, oldext, origext).fs)
  {
  }

  lemma PublishValid(fs: Fs, tools: Tools, patchName: string, outdir: string, oldfile: string,
                     origfile: string, maxdiffs: int, L: Ledger, oldext: string, origext: string,
                     oldc: string, newc: string)
    requires Valid(fs)
    ensures Valid(Publish(fs, tools, patchName, outdir, oldfile, origfile, maxdiffs, L, oldext, origext, oldc, newc).fs)
  {
    var fs3 := WriteDiff(fs, tools, outdir, patchName, oldc, newc);
    PrimitivesKeepValid(fs, DiffFile(outdir, patchName) + ".gz", "", tools.gzip(tools.edDiff(oldc, newc)));
    ReplaceValid(fs3, oldfile, origfile, oldext, origext);
    var step := Replace(fs3, oldfile, origfile, oldext, origext);
    var L1 := Recorded(fs3, tools, patchName, outdir, L, oldc, newc);
    WriteIndexValid(step.fs, outdir, DumpSpec(L1, maxdiffs, Some(outdir)));
  }

  /** A run never leaves a name pointing at an inode not yet handed out. */
  lemma ReconcileValid(fs: Fs, tools: Tools, opts: Options, outdir: string, oldfile: string,
                       origfile: string, maxdiffs: int)
    requires Valid(fs)
    ensures Valid(Reconcile(fs, tools, opts, outdir, oldfile, origfile, maxdiffs).fs)
  {
    if !opts.noAct && LoadSpec(fs, Some(outdir)).Success? {
      var L := LoadSpec(fs, Some(outdir)).value;
      var oldS := SmartStat(fs, oldfile);
      var origS := SmartStat(fs, origfile);
      if origS.Some? && oldS.None? {
        PrimitivesKeepValid(fs, origfile + origS.value.ext, oldfile + origS.value.ext, "");
      } else if origS.Some? && oldS.value.ino != origS.value.ino {
        var newfile := NewFile(oldfile);
        PrimitivesKeepValid(fs, newfile, "", "");
        var fs1 := TryUnlinkFs(fs, newfile);
        var r2 := SmartLinkFs(fs1, tools, origfile, newfile);
        if r2.Success? {
          var fs2 := r2.value;
          var oldc := SmartOpen(fs, tools, oldfile).value;
          var newc := Content(fs2, newfile).value;
          PrimitivesKeepValid(fs2, newfile, "", "");
          PublishValid(fs2, tools, opts.patchName, outdir, oldfile, origfile, maxdiffs,
                       WithCanon(L, opts.canonicalPath), oldS.value.ext, origS.value.ext, oldc, newc);
        }
      }
    }
  }

  // ---------------------------------------------------------------------
  // Which names a run touches

  /** The names one run writes or removes (`newfile`, the patch, `Index`
      and the patch files `dump` rotates out) are apart from the variants
      of the two files it compares, and those are apart from each other. */
  ghost predicate Apart(outdir: string, oldfile: string, origfile: string, patchName: string) {
    var files := Variants(oldfile) + Variants(origfile);
    var nf := NewFile(oldfile);
    var dg := DiffFile(outdir, patchName) + ".gz";
    && Variants(oldfile) !! Variants(origfile)
    && nf !in Variants(origfile)
    && dg !in files + {nf}
    && IndexFile(outdir) !in files + {nf, dg}
    && forall h :: PatchPath(Some(outdir), h) !in files
  }

  /** At most one of `f`, `f.gz`, `f.bz2` exists. */
  ghost predicate Single(fs: Fs, f: string) {
    && (IsFile(fs, f) ==> !IsFile(fs, f + ".gz") && !IsFile(fs, f + ".bz2"))
    && (IsFile(fs, f + ".gz") ==> !IsFile(fs, f + ".bz2"))
  }

  /** Exactly the variant `f + ext` exists. */
  ghost predicate Only(fs: Fs, f: string, ext: string) {
    && ext in {"", ".gz", ".bz2"}
    && IsFile(fs, f + ext)
    && (ext != "" ==> !IsFile(fs, f))
    && (ext != ".gz" ==> !IsFile(fs, f + ".gz"))
    && (ext != ".bz2" ==> !IsFile(fs, f + ".bz2"))
  }

  lemma SmartStatOnly(fs: Fs, f: string, ext: string)
    requires Only(fs, f, ext)
    ensures SmartStat(fs, f) == Some(Found(ext, fs.names[f + ext]))
  {
    assert f + "" == f;
  }

  lemma SingleOnly(fs: Fs, f: string)
    requires Single(fs, f) && SmartStat(fs, f).Some?
    ensures Only(fs, f, SmartStat(fs, f).value.ext)
  {
    assert f + "" == f;
  }

  lemma NewFileApart(oldfile: string)
    ensures NewFile(oldfile) !in Variants(oldfile)
  {
    var n := |oldfile|;
    assert NewFile(oldfile)[n + 1] == 'n';
    assert (oldfile + ".gz")[n + 1] == 'g';
    assert (oldfile + ".bz2")[n + 1] == 'b';
  }

  lemma VariantIn(f: string, ext: string)
    requires ext in {"", ".gz", ".bz2"}
    ensures f + ext in Variants(f)
  {
    assert f + "" == f;
  }

  /** The old copy and the original are the same inode, under the same
      suffix: what the next run finds as an unbroken hard link. */
  ghost predicate Linked(fs: Fs, oldfile: string, origfile: string) {
    SmartStat(fs, origfile).Some? && SmartStat(fs, oldfile) == SmartStat(fs, origfile)
  }

  // ---------------------------------------------------------------------
  // Unchanged content

  /** When the content is unchanged, lines 250-259 leave every name other
      than `newfile` as they found it, and remove `newfile`. */
  lemma RegenerateUnchanged(fs: Fs, tools: Tools, opts: Options, outdir: string, oldfile: string,
                            origfile: string, maxdiffs: int, L: Ledger, oldext: string, origext: string,
                            oldc: string, q: string)
    requires Valid(fs) && q != NewFile(oldfile)
    ensures var r := Regenerate(fs, tools, opts, outdir, oldfile, origfile, maxdiffs, L, oldext, origext, oldc);
      r.outcome == ContentUnchanged ==>
        SameAt(r.fs, fs, q) && Content(r.fs, q) == Content(fs, q) && !IsFile(r.fs, NewFile(oldfile))
  {
    var newfile := NewFile(oldfile);
    var fs1 := TryUnlinkFs(fs, newfile);
    PrimitivesKeepValid(fs, newfile, newfile, "");
    if SmartLinkFs(fs1, tools, origfile, newfile).Success? {
      SmartLinkNames(fs1, tools, origfile, newfile, q);
    }
  }

  /** A run that finds the content unchanged (lines 256-259) rewrites
      nothing: every name other than `newfile`, `Index` among them, keeps
      its inode and its content, and `newfile` is gone. */
  lemma UnchangedKeepsFiles(fs: Fs, tools: Tools, opts: Options, outdir: string, oldfile: string,
                            origfile: string, maxdiffs: int, q: string)
    requires Valid(fs) && q != NewFile(oldfile)
    ensures var r := Reconcile(fs, tools, opts, outdir, oldfile, origfile, maxdiffs);
      r.outcome == ContentUnchanged ==>
        SameAt(r.fs, fs, q) && Content(r.fs, q) == Content(fs, q) && !IsFile(r.fs, NewFile(oldfile))
  {
    var L := LoadSpec(fs, Some(outdir));
    var oldS := SmartStat(fs, oldfile);
    var origS := SmartStat(fs, origfile);
    if !opts.noAct && L.Success? && origS.Some? && oldS.Some? && oldS.value.ino != origS.value.ino {
      RegenerateUnchanged(fs, tools, opts, outdir, oldfile, origfile, maxdiffs,
                          WithCanon(L.value, opts.canonicalPath), oldS.value.ext, origS.value.ext,
                          SmartOpen(fs, tools, oldfile).value, q);
    }
  }

  /** In particular `Index` is left untouched. */
  lemma UnchangedKeepsIndex(fs: Fs, tools: Tools, opts: Options, outdir: string, oldfile: string,
                            origfile: string, maxdiffs: int)
    requires Valid(fs)
    ensures var r := Reconcile(fs, tools, opts, outdir, oldfile, origfile, maxdiffs);
      r.outcome == ContentUnchanged ==> Content(r.fs, IndexFile(outdir)) == Content(fs, IndexFile(outdir))
  {
    var idx := IndexFile(outdir);
    assert idx[|idx| - 1] == 'x' && NewFile(oldfile)[|NewFile(oldfile)| - 1] == 'w';
    UnchangedKeepsFiles(fs, tools, opts, outdir, oldfile, origfile, maxdiffs, idx);
  }

  // ---------------------------------------------------------------------
  // The initial run

  /** Without an old copy the run always hard links the original into
      place and leaves `Index` alone; the old copy then is the original. */
  lemma InitialRunLinks(fs: Fs, tools: Tools, opts: Options, outdir: string, oldfile: string,
                        origfile: string, maxdiffs: int)
    requires !opts.noAct && LoadSpec(fs, Some(outdir)).Success?
    requires SmartStat(fs, origfile).Some? && SmartStat(fs, oldfile).None?
    requires Variants(oldfile) !! Variants(origfile) && IndexFile(outdir) !in Variants(oldfile)
    ensures var r := Reconcile(fs, tools, opts, outdir, oldfile, origfile, maxdiffs);
            && r.outcome == InitialRun
            && SmartStat(r.fs, oldfile) == SmartStat(fs, origfile)
            && SmartStat(r.fs, origfile) == SmartStat(fs, origfile)
            && Content(r.fs, IndexFile(outdir)) == Content(fs, IndexFile(outdir))
            && Linked(r.fs, oldfile, origfile)
            && LoadSpec(r.fs, Some(outdir)) == LoadSpec(fs, Some(outdir))
  {
    var ext := SmartStat(fs, origfile).value.ext;
    VariantIn(oldfile, ext);
    VariantIn(origfile, ext);
    assert oldfile + "" == oldfile && origfile + "" == origfile;
    var fs1 := LinkFs(fs, origfile + ext, oldfile + ext).value;
    SmartStatOnly(fs1, oldfile, ext);
    SmartStatSame(fs1, fs, origfile);
  }

  // ---------------------------------------------------------------------
  // The steps of a published change, one by one

  lemma WriteDiffNames(fs: Fs, tools: Tools, outdir: string, patchName: string, oldc: string, newc: string, q: string)
    requires q != DiffFile(outdir, patchName) + ".gz"
    ensures SameAt(WriteDiff(fs, tools, outdir, patchName, oldc, newc), fs, q)
  {
  }

  /** Replacing the old copy touches no name but the old copy's two
      spellings and `newfile`. */
  lemma ReplaceNames(fs: Fs, oldfile: string, origfile: string, oldext: string, origext: string, q: string)
    requires q != oldfile + oldext && q != oldfile + origext && q != NewFile(oldfile)
    ensures var step := Replace(fs, oldfile, origfile, oldext, origext);
            step.err.None? ==> SameAt(step.fs, fs, q)
  {
  }

  /** A completed replacement leaves the old copy a hard link of the
      original, under the original's suffix. */
  lemma ReplaceLinks(fs: Fs, oldfile: string, origfile: string, oldext: string, origext: string)
    requires origfile + origext != oldfile + oldext && oldfile + origext != NewFile(oldfile)
    ensures var step := Replace(fs, oldfile, origfile, oldext, origext);
            step.err.None? ==>
              && origfile + origext in fs.names
              && oldfile + origext in step.fs.names
              && step.fs.names[oldfile + origext] == fs.names[origfile + origext]
              && (oldext != origext ==> !IsFile(step.fs, oldfile + oldext))
  {
    if oldext != origext {
      assert (oldfile + oldext)[|oldfile|..] == oldext;
      assert (oldfile + origext)[|oldfile|..] == origext;
    }
  }

  /** The replacement completes when the old copy, the original and
      `newfile` exist and nothing is in the old copy's new spelling. */
  lemma ReplaceSucceeds(fs: Fs, oldfile: string, origfile: string, oldext: string, origext: string)
    requires IsFile(fs, oldfile + oldext) && IsFile(fs, origfile + origext) && IsFile(fs, NewFile(oldfile))
    requires origfile + origext != oldfile + oldext
    requires NewFile(oldfile) != oldfile + oldext && NewFile(oldfile) != oldfile + origext
    requires oldext == origext || !IsFile(fs, oldfile + origext)
    ensures Replace(fs, oldfile, origfile, oldext, origext).err.None?
  {
  }

  /** `q` is none of the names a publish writes or removes. */
  ghost predicate Untouched(outdir: string, oldfile: string, patchName: string, oldext: string, origext: string,
                            q: string) {
    && q != DiffFile(outdir, patchName) + ".gz" && q != oldfile + oldext && q != oldfile + origext
    && q != NewFile(oldfile) && q != IndexFile(outdir)
    && forall h :: PatchPath(Some(outdir), h) != q
  }

  /** The variants of the original, and those of the old copy under
      neither suffix, are untouched. */
  lemma ApartUntouched(outdir: string, oldfile: string, origfile: string, patchName: string,
                       oldext: string, origext: string, e: string)
    requires Apart(outdir, oldfile, origfile, patchName)
    requires oldext in {"", ".gz", ".bz2"} && origext in {"", ".gz", ".bz2"} && e in {"", ".gz", ".bz2"}
    ensures Untouched(outdir, oldfile, patchName, oldext, origext, origfile + e)
    ensures e != oldext && e != origext ==> Untouched(outdir, oldfile, patchName, oldext, origext, oldfile + e)
  {
    VariantIn(origfile, e);
    VariantIn(oldfile, e);
    VariantIn(oldfile, oldext);
    VariantIn(oldfile, origext);
    NewFileApart(oldfile);
    if e != oldext && e != origext {
      assert (oldfile + e)[|oldfile|..] == e;
      assert (oldfile + oldext)[|oldfile|..] == oldext;
      assert (oldfile + origext)[|oldfile|..] == origext;
    }
  }

  /** What a run that publishes does to names: every name outside the ones
      it writes keeps its inode. */
  lemma PublishNames(fs: Fs, tools: Tools, patchName: string, outdir: string, oldfile: string,
                     origfile: string, maxdiffs: int, L: Ledger, oldext: string, origext: string,
                     oldc: string, newc: string, q: string)
    requires Untouched(outdir, oldfile, patchName, oldext, origext, q)
    ensures var r := Publish(fs, tools, patchName, outdir, oldfile, origfile, maxdiffs, L, oldext, origext, oldc, newc);
            r.outcome == Changed ==> SameAt(r.fs, fs, q)
  {
    var fs3 := WriteDiff(fs, tools, outdir, patchName, oldc, newc);
    var step := Replace(fs3, oldfile, origfile, oldext, origext);
    var L1 := Recorded(fs3, tools, patchName, outdir, L, oldc, newc);
    var d := DumpSpec(L1, maxdiffs, Some(outdir));
    if step.err.None? && d.ok {
      WriteDiffNames(fs, tools, outdir, patchName, oldc, newc, q);
      ReplaceNames(fs3, oldfile, origfile, oldext, origext, q);
      UnlinkedArePatches(L1, maxdiffs, Some(outdir));
      WriteIndexNames(step.fs, outdir, d, q);
    }
  }

  /** After a published change the old copy is the original's inode. */
  lemma PublishLinks(fs: Fs, tools: Tools, patchName: string, outdir: string, oldfile: string,
                     origfile: string, maxdiffs: int, L: Ledger, oldext: string, origext: string,
                     oldc: string, newc: string)
    requires Apart(outdir, oldfile, origfile, patchName)
    requires oldext in {"", ".gz", ".bz2"} && origext in {"", ".gz", ".bz2"}
    ensures var r := Publish(fs, tools, patchName, outdir, oldfile, origfile, maxdiffs, L, oldext, origext, oldc, newc);
            r.outcome == Changed ==>
              && origfile + origext in fs.names
              && oldfile + origext in r.fs.names
              && r.fs.names[oldfile + origext] == fs.names[origfile + origext]
              && (oldext != origext ==> !IsFile(r.fs, oldfile + oldext))
  {
    var fs3 := WriteDiff(fs, tools, outdir, patchName, oldc, newc);
    var step := Replace(fs3, oldfile, origfile, oldext, origext);
    var L1 := Recorded(fs3, tools, patchName, outdir, L, oldc, newc);
    var d := DumpSpec(L1, maxdiffs, Some(outdir));
    if step.err.None? && d.ok {
      VariantIn(oldfile, oldext);
      VariantIn(oldfile, origext);
      VariantIn(origfile, origext);
      NewFileApart(oldfile);
      var dg := DiffFile(outdir, patchName) + ".gz";
      WriteDiffNames(fs, tools, outdir, patchName, oldc, newc, origfile + origext);
      ReplaceLinks(fs3, oldfile, origfile, oldext, origext);
      UnlinkedArePatches(L1, maxdiffs, Some(outdir));
      WriteIndexNames(step.fs, outdir, d, oldfile + origext);
      if oldext != origext {
        WriteIndexNames(step.fs, outdir, d, oldfile + oldext);
      }
    }
  }

  lemma SmartLinkNames(fs: Fs, tools: Tools, f: string, t: string, q: string)
    requires q != t && SmartLinkFs(fs, tools, f, t).Success?
    ensures SameAt(SmartLinkFs(fs, tools, f, t).value, fs, q)
  {
  }

  /** `tryunlink(newfile)` changes nothing `smartstat` or `smartopen` sees
      of another file. */
  lemma TryUnlinkSmart(fs: Fs, tools: Tools, p: string, f: string)
    requires p !in Variants(f)
    ensures SameVariants(TryUnlinkFs(fs, p), fs, f)
    ensures SmartOpen(TryUnlinkFs(fs, p), tools, f) == SmartOpen(fs, tools, f)
  {
    SmartStatSame(TryUnlinkFs(fs, p), fs, f);
  }

  // ---------------------------------------------------------------------
  // The ledger a change records

  /** Recording a fresh patch keeps a ledger well formed. */
  lemma AdvanceWF(L: Ledger, patchName: string, oldId: Identity, difId: Identity, newId: Identity)
    requires WF(L) && IsToken(patchName) && patchName !in L.history
    requires IsToken(oldId.digest) && IsToken(difId.digest) && IsToken(newId.digest)
    ensures WF(Advance(L, patchName, oldId, difId, newId))
  {
    var A := Advance(L, patchName, oldId, difId, newId);
    var n := |L.order|;
    forall i, j | 0 <= i < j < |A.order|
      ensures Distinct(A.order, i, j)
    {
      assert A.order[i] == L.order[i];
      if j < n {
        assert A.order[j] == L.order[j];
        UniqueAt(L.order, i, j);
      } else {
        assert A.order[j] == patchName;
        assert L.order[i] in L.history;
      }
    }
    forall k | 0 <= k < |A.order|
      ensures A.order[k] in A.history
    {
      if k < n {
        assert A.order[k] == L.order[k];
      }
    }
    forall m | m in A.history
      ensures m in A.order
    {
      if m != patchName {
        assert m in L.order;
      } else {
        assert A.order[n] == patchName;
      }
    }
  }

  lemma WithCanonWF(L: Ledger, canonicalPath: Option<string>)
    requires WF(L)
    requires canonicalPath.Some? ==> canonicalPath.value == "" || IsToken(canonicalPath.value)
    ensures WF(WithCanon(L, canonicalPath))
  {
  }

  /** `dump` keeps the current identity and the canonical path. */
  lemma DumpKeepsHeader(L: Ledger, max: int, rp: Option<string>)
    requires DumpSpec(L, max, rp).ok
    ensures var A := DumpSpec(L, max, rp).after;
            A.current == L.current && A.canPath == L.canPath
  {
    DumpRotation(L, max, rp);
  }

  /** A dump that keeps at least one patch keeps the newest one, with its
      entry. */
  lemma DumpKeepsNewest(L: Ledger, max: int, rp: Option<string>)
    requires Unique(L.order) && |L.order| >= 1 && max >= 1 && DumpSpec(L, max, rp).ok
    ensures var A := DumpSpec(L, max, rp).after;
            var newest := L.order[|L.order| - 1];
            && |A.order| >= 1
            && A.order[|A.order| - 1] == newest
            && (newest in L.history ==> newest in A.history && A.history[newest] == L.history[newest])
  {
    DumpRotation(L, max, rp);
    var A := DumpSpec(L, max, rp).after;
    var n := |L.order|;
    var newest := L.order[n - 1];
    if n > max {
      var c := n - max;
      var gone := set m | m in L.order[..c];
      assert A.order == L.order[c..] && A.history == L.history - gone;
      forall m | 0 <= m < c
        ensures L.order[..c][m] != newest
      {
        UniqueAt(L.order, m, n - 1);
      }
      assert newest !in gone;
      assert A.order[max - 1] == newest;
    } else {
      assert A == L;
    }
  }

  /** The ledger `Publish` dumps after its patch is on disk completes and
      its text reads back as the ledger the dump left. */
  lemma RecordedReadsBack(fs: Fs, tools: Tools, patchName: string, outdir: string, L: Ledger,
                          oldc: string, newc: string, max: int)
    requires IsFile(fs, DiffFile(outdir, patchName) + ".gz")
    requires WF(L) && IsToken(patchName) && patchName !in L.history
    ensures var d := DumpSpec(Recorded(fs, tools, patchName, outdir, L, oldc, newc), max, Some(outdir));
            d.ok && ParseIndex(Lines(d.text)) == Success(Normal(d.after))
  {
    var difc := SmartOpenOf(fs, tools, DiffFile(outdir, patchName));
    AdvanceWF(L, patchName, SizeSha1(tools, oldc), SizeSha1(tools, difc), SizeSha1(tools, newc));
    DumpRoundTrip(Recorded(fs, tools, patchName, outdir, L, oldc, newc), max, Some(outdir));
  }

  /** `Index` after a published change reads back as the dumped ledger, and
      a well-formed ledger with a fresh patch name never makes `dump`
      fail. */
  lemma PublishReadsBack(fs: Fs, tools: Tools, patchName: string, outdir: string, oldfile: string,
                         origfile: string, maxdiffs: int, L: Ledger, oldext: string, origext: string,
                         oldc: string, newc: string)
    requires WF(L) && IsToken(patchName) && patchName !in L.history && outdir != ""
    ensures var r := Publish(fs, tools, patchName, outdir, oldfile, origfile, maxdiffs, L, oldext, origext, oldc, newc);
            var L1 := Recorded(WriteDiff(fs, tools, outdir, patchName, oldc, newc), tools, patchName, outdir, L, oldc, newc);
            var d := DumpSpec(L1, maxdiffs, Some(outdir));
            && r.outcome != Crashed(DumpFailure)
            && (r.outcome == Changed ==> LoadSpec(r.fs, Some(outdir)) == Success(Normal(d.after)))
  {
    RecordedReadsBack(WriteDiff(fs, tools, outdir, patchName, oldc, newc), tools, patchName, outdir, L,
                      oldc, newc, maxdiffs);
  }

  // ---------------------------------------------------------------------
  // Whole runs

  /** `Index` loads as a well-formed ledger that does not name the new
      patch yet, and the canonical path given is one `dump` writes back. */
  ghost predicate Writable(fs: Fs, opts: Options, outdir: string) {
    && outdir != ""
    && LoadSpec(fs, Some(outdir)).Success?
    && WF(LoadSpec(fs, Some(outdir)).value)
    && IsToken(opts.patchName)
    && opts.patchName !in LoadSpec(fs, Some(outdir)).value.history
    && (opts.canonicalPath.Some? ==> opts.canonicalPath.value == "" || IsToken(opts.canonicalPath.value))
  }

  /** With the old copy in place and `newfile` made, every step after the
      diff succeeds. */
  lemma PublishCompletes(fs: Fs, tools: Tools, patchName: string, outdir: string, oldfile: string,
                         origfile: string, maxdiffs: int, L: Ledger, oldext: string, origext: string,
                         oldc: string, newc: string)
    requires Apart(outdir, oldfile, origfile, patchName)
    requires Only(fs, oldfile, oldext) && origext in {"", ".gz", ".bz2"}
    requires IsFile(fs, origfile + origext) && IsFile(fs, NewFile(oldfile))
    requires WF(L) && IsToken(patchName) && patchName !in L.history && outdir != ""
    ensures Publish(fs, tools, patchName, outdir, oldfile, origfile, maxdiffs, L, oldext, origext, oldc, newc).outcome == Changed
  {
    VariantIn(oldfile, oldext);
    VariantIn(oldfile, origext);
    VariantIn(origfile, origext);
    NewFileApart(oldfile);
    var fs3 := WriteDiff(fs, tools, outdir, patchName, oldc, newc);
    WriteDiffNames(fs, tools, outdir, patchName, oldc, newc, oldfile + oldext);
    WriteDiffNames(fs, tools, outdir, patchName, oldc, newc, oldfile + origext);
    WriteDiffNames(fs, tools, outdir, patchName, oldc, newc, origfile + origext);
    WriteDiffNames(fs, tools, outdir, patchName, oldc, newc, NewFile(oldfile));
    ReplaceSucceeds(fs3, oldfile, origfile, oldext, origext);
    PublishReadsBack(fs, tools, patchName, outdir, oldfile, origfile, maxdiffs, L, oldext, origext, oldc, newc);
  }

  /** The state `Regenerate` hands to `Publish`: `newfile` holds what
      `smartopen(origfile)` read, and both compared files look as before. */
  lemma RegenerateLinks(fs: Fs, tools: Tools, oldfile: string, origfile: string)
    requires NewFile(oldfile) !in Variants(origfile) && SmartStat(fs, origfile).Some?
    ensures var fs1 := TryUnlinkFs(fs, NewFile(oldfile));
            var r := SmartLinkFs(fs1, tools, origfile, NewFile(oldfile));
            && r.Success?
            && Content(r.value, NewFile(oldfile)) == SmartOpen(fs, tools, origfile)
            && SameVariants(r.value, fs, origfile) && SameVariants(r.value, fs, oldfile)
  {
    var nf := NewFile(oldfile);
    NewFileApart(oldfile);
    var fs1 := TryUnlinkFs(fs, nf);
    TryUnlinkSmart(fs, tools, nf, origfile);
    TryUnlinkSmart(fs, tools, nf, oldfile);
    SmartStatSame(fs1, fs, origfile);
    var fs2 := SmartLinkFs(fs1, tools, origfile, nf).value;
    SmartLinkNames(fs1, tools, origfile, nf, origfile);
    SmartLinkNames(fs1, tools, origfile, nf, origfile + ".gz");
    SmartLinkNames(fs1, tools, origfile, nf, origfile + ".bz2");
    SmartLinkNames(fs1, tools, origfile, nf, oldfile);
    SmartLinkNames(fs1, tools, origfile, nf, oldfile + ".gz");
    SmartLinkNames(fs1, tools, origfile, nf, oldfile + ".bz2");
  }

  /** Once the old copy and the original differ, the rest of a run over a
      well-formed ledger never crashes. */
  lemma RegenerateCompletes(fs: Fs, tools: Tools, opts: Options, outdir: string, oldfile: string,
                            origfile: string, maxdiffs: int, L: Ledger, oldext: string, origext: string,
                            oldc: string)
    requires Apart(outdir, oldfile, origfile, opts.patchName)
    requires Only(fs, oldfile, oldext)
    requires SmartStat(fs, origfile).Some? && origext == SmartStat(fs, origfile).value.ext
    requires WF(L) && IsToken(opts.patchName) && opts.patchName !in L.history && outdir != ""
    ensures !Regenerate(fs, tools, opts, outdir, oldfile, origfile, maxdiffs, L, oldext, origext, oldc).outcome.Crashed?
  {
    var nf := NewFile(oldfile);
    RegenerateLinks(fs, tools, oldfile, origfile);
    var fs2 := SmartLinkFs(TryUnlinkFs(fs, nf), tools, origfile, nf).value;
    SmartStatSame(fs2, fs, origfile);
    assert oldfile + "" == oldfile;
    assert Only(fs2, oldfile, oldext);
    assert IsFile(fs2, origfile + origext) && IsFile(fs2, nf);
    PublishCompletes(fs2, tools, opts.patchName, outdir, oldfile, origfile, maxdiffs, L, oldext, origext,
                     oldc, Content(fs2, nf).value);
  }

  /** A run over a well-formed `Index`, with the touched names apart and at
      most one old copy, never crashes. */
  lemma RunNeverCrashes(fs: Fs, tools: Tools, opts: Options, outdir: string, oldfile: string,
                        origfile: string, maxdiffs: int)
    requires Apart(outdir, oldfile, origfile, opts.patchName)
    requires Writable(fs, opts, outdir) && Single(fs, oldfile)
    ensures !Reconcile(fs, tools, opts, outdir, oldfile, origfile, maxdiffs).outcome.Crashed?
  {
    var L := LoadSpec(fs, Some(outdir)).value;
    var oldS := SmartStat(fs, oldfile);
    var origS := SmartStat(fs, origfile);
    if !opts.noAct && origS.Some? {
      if oldS.None? {
        InitialRunLinks(fs, tools, opts, outdir, oldfile, origfile, maxdiffs);
      } else if oldS.value.ino != origS.value.ino {
        SingleOnly(fs, oldfile);
        WithCanonWF(L, opts.canonicalPath);
        RegenerateCompletes(fs, tools, opts, outdir, oldfile, origfile, maxdiffs, WithCanon(L, opts.canonicalPath),
                            oldS.value.ext, origS.value.ext, SmartOpen(fs, tools, oldfile).value);
      }
    }
  }

  /** A dump of a well-formed ledger always completes. */
  lemma DumpCompletes(L: Ledger, max: int, rp: Option<string>)
    requires WF(L)
    ensures DumpSpec(L, max, rp).ok
  {
    DumpRoundTrip(L, max, rp);
  }

  /** Dumping a ledger just advanced by one patch leaves a well-formed
      ledger with the same header. */
  lemma AdvanceDumpHeader(L: Ledger, patchName: string, oldId: Identity, difId: Identity, newId: Identity,
                          max: int, rp: Option<string>)
    requires WF(L) && IsToken(patchName) && patchName !in L.history
    requires IsToken(oldId.digest) && IsToken(difId.digest) && IsToken(newId.digest)
    ensures var N := Normal(DumpSpec(Advance(L, patchName, oldId, difId, newId), max, rp).after);
            WF(N) && N.current == Some(newId) && N.canPath == Normal(L).canPath
  {
    var A := Advance(L, patchName, oldId, difId, newId);
    AdvanceWF(L, patchName, oldId, difId, newId);
    DumpRoundTrip(A, max, rp);
    DumpKeepsHeader(A, max, rp);
  }

  /** Reading back changes nothing but an empty canonical path. */
  lemma NormalFields(L: Ledger)
    ensures Normal(L).order == L.order && Normal(L).history == L.history && Normal(L).current == L.current
  {
  }

  lemma AdvanceDumpOk(L: Ledger, patchName: string, oldId: Identity, difId: Identity, newId: Identity,
                      max: int, rp: Option<string>)
    requires WF(L) && IsToken(patchName) && patchName !in L.history
    requires IsToken(oldId.digest) && IsToken(difId.digest) && IsToken(newId.digest)
    ensures var A := Advance(L, patchName, oldId, difId, newId);
            Unique(A.order) && DumpSpec(A, max, rp).ok
  {
    AdvanceWF(L, patchName, oldId, difId, newId);
    DumpCompletes(Advance(L, patchName, oldId, difId, newId), max, rp);
  }

  /** When at least one patch is kept, the newest one after that dump is
      the new patch, based on the old identity. */
  lemma AdvanceDumpNewest(L: Ledger, patchName: string, oldId: Identity, difId: Identity, newId: Identity,
                          max: int, rp: Option<string>)
    requires WF(L) && IsToken(patchName) && patchName !in L.history && max >= 1
    requires IsToken(oldId.digest) && IsToken(difId.digest) && IsToken(newId.digest)
    ensures var N := Normal(DumpSpec(Advance(L, patchName, oldId, difId, newId), max, rp).after);
            && |N.order| >= 1
            && N.order[|N.order| - 1] == patchName
            && patchName in N.history
            && N.history[patchName].before == Some(oldId)
  {
    var A := Advance(L, patchName, oldId, difId, newId);
    AdvanceDumpOk(L, patchName, oldId, difId, newId, max, rp);
    assert A.order[|A.order| - 1] == patchName && patchName in A.history;
    DumpKeepsNewest(A, max, rp);
    NormalFields(DumpSpec(A, max, rp).after);
  }

  /** The same, for the ledger `Publish` dumps once the patch is on disk. */
  /** What `Index` holds after a published change: a well-formed ledger
      whose current identity is `newId` and whose canonical path is
      `canPath`; when at least one patch is kept, the newest patch is
      `patchName`, based on `oldId`. */
  ghost predicate Records(M: Ledger, newId: Identity, canPath: Option<string>, patchName: string,
                          oldId: Identity, max: int) {
    && WF(M)
    && M.current == Some(newId)
    && M.canPath == canPath
    && (max >= 1 ==>
          && |M.order| >= 1
          && M.order[|M.order| - 1] == patchName
          && patchName in M.history
          && M.history[patchName].before == Some(oldId))
  }

  lemma RecordedDump(fs: Fs, tools: Tools, patchName: string, outdir: string, L: Ledger,
                     oldc: string, newc: string, max: int)
    requires IsFile(fs, DiffFile(outdir, patchName) + ".gz")
    requires WF(L) && IsToken(patchName) && patchName !in L.history
    ensures Records(Normal(DumpSpec(Recorded(fs, tools, patchName, outdir, L, oldc, newc), max, Some(outdir)).after),
                    SizeSha1(tools, newc), Normal(L).canPath, patchName, SizeSha1(tools, oldc), max)
  {
    var difc := SmartOpenOf(fs, tools, DiffFile(outdir, patchName));
    AdvanceDumpHeader(L, patchName, SizeSha1(tools, oldc), SizeSha1(tools, difc), SizeSha1(tools, newc),
                      max, Some(outdir));
    if max >= 1 {
      AdvanceDumpNewest(L, patchName, SizeSha1(tools, oldc), SizeSha1(tools, difc), SizeSha1(tools, newc),
                        max, Some(outdir));
    }
  }

  /** After a published change `Index` loads as the ledger advanced by the
      new patch. */
  lemma PublishRecords(fs: Fs, tools: Tools, patchName: string, outdir: string, oldfile: string,
                       origfile: string, maxdiffs: int, L: Ledger, oldext: string, origext: string,
                       oldc: string, newc: string)
    requires WF(L) && IsToken(patchName) && patchName !in L.history && outdir != ""
    ensures var r := Publish(fs, tools, patchName, outdir, oldfile, origfile, maxdiffs, L, oldext, origext, oldc, newc);
            var M := LoadSpec(r.fs, Some(outdir));
            r.outcome == Changed ==>
              M.Success? && Records(M.value, SizeSha1(tools, newc), Normal(L).canPath, patchName, SizeSha1(tools, oldc), maxdiffs)
  {
    PublishReadsBack(fs, tools, patchName, outdir, oldfile, origfile, maxdiffs, L, oldext, origext, oldc, newc);
    RecordedDump(WriteDiff(fs, tools, outdir, patchName, oldc, newc), tools, patchName, outdir, L, oldc, newc, maxdiffs);
  }

  lemma RegenerateRecords(fs: Fs, tools: Tools, opts: Options, outdir: string, oldfile: string,
                          origfile: string, maxdiffs: int, L: Ledger, oldext: string, origext: string,
                          oldc: string)
    requires NewFile(oldfile) !in Variants(origfile) && SmartStat(fs, origfile).Some?
    requires WF(L) && IsToken(opts.patchName) && opts.patchName !in L.history && outdir != ""
    ensures var r := Regenerate(fs, tools, opts, outdir, oldfile, origfile, maxdiffs, L, oldext, origext, oldc);
            var M := LoadSpec(r.fs, Some(outdir));
            r.outcome == Changed ==>
              M.Success? && Records(M.value, SizeSha1(tools, SmartOpen(fs, tools, origfile).value), Normal(L).canPath,
                                    opts.patchName, SizeSha1(tools, oldc), maxdiffs)
  {
    var nf := NewFile(oldfile);
    RegenerateLinks(fs, tools, oldfile, origfile);
    var fs2 := SmartLinkFs(TryUnlinkFs(fs, nf), tools, origfile, nf).value;
    PublishRecords(fs2, tools, opts.patchName, outdir, oldfile, origfile, maxdiffs, L, oldext, origext,
                   oldc, Content(fs2, nf).value);
  }

  /** After a published change `Index` loads as a well-formed ledger whose
      current identity is that of the original's content; when at least
      one patch is kept, the newest is the new patch, based on the old
      copy's identity. */
  lemma ChangedReadsBack(fs: Fs, tools: Tools, opts: Options, outdir: string, oldfile: string,
                         origfile: string, maxdiffs: int)
    requires NewFile(oldfile) !in Variants(origfile)
    requires Writable(fs, opts, outdir)
    ensures var r := Reconcile(fs, tools, opts, outdir, oldfile, origfile, maxdiffs);
            var L := LoadSpec(fs, Some(outdir)).value;
            var M := LoadSpec(r.fs, Some(outdir));
            r.outcome == Changed ==>
              M.Success? && Records(M.value, SizeSha1(tools, SmartOpen(fs, tools, origfile).value),
                                    Normal(WithCanon(L, opts.canonicalPath)).canPath, opts.patchName,
                                    SizeSha1(tools, SmartOpen(fs, tools, oldfile).value), maxdiffs)
  {
    var L := LoadSpec(fs, Some(outdir)).value;
    WithCanonWF(L, opts.canonicalPath);
    if !opts.noAct && SmartStat(fs, origfile).Some? && SmartStat(fs, oldfile).Some? {
      RegenerateRecords(fs, tools, opts, outdir, oldfile, origfile, maxdiffs, WithCanon(L, opts.canonicalPath),
                        SmartStat(fs, oldfile).value.ext, SmartStat(fs, origfile).value.ext,
                        SmartOpen(fs, tools, oldfile).value);
    }
  }

  /** The variants of the original keep their inodes through a publish. */
  lemma PublishKeepsOrig(fs: Fs, tools: Tools, patchName: string, outdir: string, oldfile: string,
                         origfile: string, maxdiffs: int, L: Ledger, oldext: string, origext: string,
                         oldc: string, newc: string)
    requires Apart(outdir, oldfile, origfile, patchName)
    requires oldext in {"", ".gz", ".bz2"} && origext in {"", ".gz", ".bz2"}
    ensures var r := Publish(fs, tools, patchName, outdir, oldfile, origfile, maxdiffs, L, oldext, origext, oldc, newc);
            r.outcome == Changed ==> SameVariants(r.fs, fs, origfile)
  {
    assert origfile + "" == origfile;
    ApartUntouched(outdir, oldfile, origfile, patchName, oldext, origext, "");
    ApartUntouched(outdir, oldfile, origfile, patchName, oldext, origext, ".gz");
    ApartUntouched(outdir, oldfile, origfile, patchName, oldext, origext, ".bz2");
    PublishNames(fs, tools, patchName, outdir, oldfile, origfile, maxdiffs, L, oldext, origext, oldc, newc, origfile);
    PublishNames(fs, tools, patchName, outdir, oldfile, origfile, maxdiffs, L, oldext, origext, oldc, newc, origfile + ".gz");
    PublishNames(fs, tools, patchName, outdir, oldfile, origfile, maxdiffs, L, oldext, origext, oldc, newc, origfile + ".bz2");
  }

  /** After a publish only the original's suffix of the old copy exists,
      and it is the original's inode. */
  lemma PublishOnly(fs: Fs, tools: Tools, patchName: string, outdir: string, oldfile: string,
                    origfile: string, maxdiffs: int, L: Ledger, oldext: string, origext: string,
                    oldc: string, newc: string)
    requires Apart(outdir, oldfile, origfile, patchName)
    requires Only(fs, oldfile, oldext) && origext in {"", ".gz", ".bz2"}
    ensures var r := Publish(fs, tools, patchName, outdir, oldfile, origfile, maxdiffs, L, oldext, origext, oldc, newc);
            r.outcome == Changed ==>
              && Only(r.fs, oldfile, origext)
              && origfile + origext in fs.names
              && r.fs.names[oldfile + origext] == fs.names[origfile + origext]
  {
    PublishLinks(fs, tools, patchName, outdir, oldfile, origfile, maxdiffs, L, oldext, origext, oldc, newc);
    assert oldfile + "" == oldfile;
    forall e | e in {"", ".gz", ".bz2"} && e != oldext && e != origext
      ensures Untouched(outdir, oldfile, patchName, oldext, origext, oldfile + e)
    {
      ApartUntouched(outdir, oldfile, origfile, patchName, oldext, origext, e);
    }
    if "" != oldext && "" != origext {
      PublishNames(fs, tools, patchName, outdir, oldfile, origfile, maxdiffs, L, oldext, origext, oldc, newc, oldfile + "");
    }
    if ".gz" != oldext && ".gz" != origext {
      PublishNames(fs, tools, patchName, outdir, oldfile, origfile, maxdiffs, L, oldext, origext, oldc, newc, oldfile + ".gz");
    }
    if ".bz2" != oldext && ".bz2" != origext {
      PublishNames(fs, tools, patchName, outdir, oldfile, origfile, maxdiffs, L, oldext, origext, oldc, newc, oldfile + ".bz2");
    }
  }

  /** After a publish the old copy is linked to the original. */
  lemma PublishRelinks(fs: Fs, tools: Tools, patchName: string, outdir: string, oldfile: string,
                       origfile: string, maxdiffs: int, L: Ledger, oldext: string, origext: string,
                       oldc: string, newc: string)
    requires Apart(outdir, oldfile, origfile, patchName)
    requires Only(fs, oldfile, oldext)
    requires SmartStat(fs, origfile).Some? && origext == SmartStat(fs, origfile).value.ext
    ensures var r := Publish(fs, tools, patchName, outdir, oldfile, origfile, maxdiffs, L, oldext, origext, oldc, newc);
            r.outcome == Changed ==>
              Linked(r.fs, oldfile, origfile) && SmartStat(r.fs, origfile) == SmartStat(fs, origfile)
  {
    var r := Publish(fs, tools, patchName, outdir, oldfile, origfile, maxdiffs, L, oldext, origext, oldc, newc);
    PublishKeepsOrig(fs, tools, patchName, outdir, oldfile, origfile, maxdiffs, L, oldext, origext, oldc, newc);
    PublishOnly(fs, tools, patchName, outdir, oldfile, origfile, maxdiffs, L, oldext, origext, oldc, newc);
    if r.outcome == Changed {
      SmartStatSame(r.fs, fs, origfile);
      SmartStatOnly(r.fs, oldfile, origext);
    }
  }

  /** After a published change the old copy is the original's inode under
      the original's suffix, and the original looks as before. */
  lemma RegenerateRelinks(fs: Fs, tools: Tools, opts: Options, outdir: string, oldfile: string,
                          origfile: string, maxdiffs: int, L: Ledger, oldext: string, origext: string,
                          oldc: string)
    requires Apart(outdir, oldfile, origfile, opts.patchName)
    requires Only(fs, oldfile, oldext)
    requires SmartStat(fs, origfile).Some? && origext == SmartStat(fs, origfile).value.ext
    ensures var r := Regenerate(fs, tools, opts, outdir, oldfile, origfile, maxdiffs, L, oldext, origext, oldc);
            r.outcome == Changed ==>
              Linked(r.fs, oldfile, origfile) && SmartStat(r.fs, origfile) == SmartStat(fs, origfile)
  {
    var nf := NewFile(oldfile);
    RegenerateLinks(fs, tools, oldfile, origfile);
    var fs2 := SmartLinkFs(TryUnlinkFs(fs, nf), tools, origfile, nf).value;
    SmartStatSame(fs2, fs, origfile);
    assert oldfile + "" == oldfile;
    assert Only(fs2, oldfile, oldext);
    PublishRelinks(fs2, tools, opts.patchName, outdir, oldfile, origfile, maxdiffs, L, oldext, origext,
                   oldc, Content(fs2, nf).value);
  }

  /** A changed run leaves the old copy linked to the original. */
  lemma ChangedRelinks(fs: Fs, tools: Tools, opts: Options, outdir: string, oldfile: string,
                       origfile: string, maxdiffs: int)
    requires Apart(outdir, oldfile, origfile, opts.patchName) && Single(fs, oldfile)
    ensures var r := Reconcile(fs, tools, opts, outdir, oldfile, origfile, maxdiffs);
            r.outcome == Changed ==>
              Linked(r.fs, oldfile, origfile) && SmartStat(r.fs, origfile) == SmartStat(fs, origfile)
  {
    if LoadSpec(fs, Some(outdir)).Success? && SmartStat(fs, origfile).Some? && SmartStat(fs, oldfile).Some? {
      SingleOnly(fs, oldfile);
      RegenerateRelinks(fs, tools, opts, outdir, oldfile, origfile, maxdiffs,
                        WithCanon(LoadSpec(fs, Some(outdir)).value, opts.canonicalPath),
                        SmartStat(fs, oldfile).value.ext, SmartStat(fs, origfile).value.ext,
                        SmartOpen(fs, tools, oldfile).value);
    }
  }

  /** A first run leaves the old copy linked to the original and `Index`
      as it was. */
  lemma InitialRelinks(fs: Fs, tools: Tools, opts: Options, outdir: string, oldfile: string,
                       origfile: string, maxdiffs: int)
    requires Apart(outdir, oldfile, origfile, opts.patchName)
    ensures var r := Reconcile(fs, tools, opts, outdir, oldfile, origfile, maxdiffs);
            r.outcome == InitialRun ==>
              Linked(r.fs, oldfile, origfile) && LoadSpec(r.fs, Some(outdir)) == LoadSpec(fs, Some(outdir))
  {
    if !opts.noAct && LoadSpec(fs, Some(outdir)).Success? && SmartStat(fs, origfile).Some? && SmartStat(fs, oldfile).None? {
      InitialRunLinks(fs, tools, opts, outdir, oldfile, origfile, maxdiffs);
    }
  }

  /** A run that finds the old copy linked to the original, with a
      readable `Index`, stops at the hard-link check. */
  lemma LinkedIsQuiet(fs: Fs, tools: Tools, opts: Options, outdir: string, oldfile: string,
                      origfile: string, maxdiffs: int)
    requires !opts.noAct && LoadSpec(fs, Some(outdir)).Success? && Linked(fs, oldfile, origfile)
    ensures Reconcile(fs, tools, opts, outdir, oldfile, origfile, maxdiffs).outcome == HardlinkUnbroken
  {
  }

  /** Running again over what a run left, with nothing changed in between,
      finds the hard link unbroken: the script is idempotent. */
  lemma RerunQuiet(fs: Fs, tools: Tools, opts: Options, outdir: string, oldfile: string,
                   origfile: string, maxdiffs: int)
    requires Apart(outdir, oldfile, origfile, opts.patchName)
    requires Writable(fs, opts, outdir) && Single(fs, oldfile) && !opts.noAct
    ensures var r := Reconcile(fs, tools, opts, outdir, oldfile, origfile, maxdiffs);
            r.outcome == InitialRun || r.outcome == Changed ==>
              Reconcile(r.fs, tools, opts, outdir, oldfile, origfile, maxdiffs).outcome == HardlinkUnbroken
  {
    var r := Reconcile(fs, tools, opts, outdir, oldfile, origfile, maxdiffs);
    InitialRelinks(fs, tools, opts, outdir, oldfile, origfile, maxdiffs);
    ChangedRelinks(fs, tools, opts, outdir, oldfile, origfile, maxdiffs);
    ChangedReadsBack(fs, tools, opts, outdir, oldfile, origfile, maxdiffs);
    if r.outcome == InitialRun || r.outcome == Changed {
      LinkedIsQuiet(r.fs, tools, opts, outdir, oldfile, origfile, maxdiffs);
    }
  }
}
