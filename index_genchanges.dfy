/** `genchanges`: one run of the index-diff generator for one archive index
    file. It compares the file as published (`origfile`) with the copy kept
    from the previous run (`oldfile`) and, when the content changed, records
    an ed-script patch in the `Index` descriptor of `outdir`.

    `os.stat(...)[1:3]` is the inode and device; the filesystem model has a
    single device, so that pair is the inode number. Printing is left out;
    every exception the script does not catch ends the run and is a
    `Crashed` outcome carrying the state the filesystem was left in. */
module IndexGenChanges {
  import opened Results
  import opened Text
  import opened IndexFs
  import opened IndexLedger

  /** The options `genchanges` reads: `NoAct`, `PatchName` and
      `CanonicalPath`. */
  datatype Options = Options(noAct: bool, patchName: string, canonicalPath: Option<string>)

  datatype Crash =
    | BadIndex(load: LoadError)      // Updates.__init__ raised
    | OsFailure(os: OsError)         // os.link / os.unlink raised OSError
    | LinkFailure(link: LinkError)   // smartlink raised
    | DumpFailure                    // dump raised KeyError or TypeError

  datatype Outcome =
    | NoAction          // NoAct set: "not doing anything"
    | SourceMissing     // "<origfile> doesn't exist"
    | InitialRun        // no old copy: hard link the original
    | HardlinkUnbroken  // old copy is still the original's inode
    | ContentUnchanged  // same SHA-1 and size: no diff
    | Changed           // a patch is recorded and Index rewritten
    | Crashed(crash: Crash)

  datatype Run = Run(outcome: Outcome, fs: Fs)

  function NewFile(oldfile: string): string {
    oldfile + ".new"
  }

  function DiffFile(outdir: string, patchName: string): string {
    outdir + "/" + patchName
  }

  /** The ledger after a real change: the patch entry holds the identity of
      the old content and of the patch, it is appended to the order, and the
      current identity becomes that of the new content. */
  function Advance(L: Ledger, patchName: string, oldId: Identity, difId: Identity, newId: Identity): (r: Ledger)
    ensures r.history == L.history[patchName := Slots(Some(oldId), Some(difId))]
    ensures r.order == L.order + [patchName] && r.current == Some(newId) && r.canPath == L.canPath
  {
    L.(history := L.history[patchName := Slots(Some(oldId), Some(difId))],
       order := L.order + [patchName],
       current := Some(newId))
  }

  /** `upd.can_path` after the `CanonicalPath` option is applied. */
  function WithCanon(L: Ledger, canonicalPath: Option<string>): Ledger {
    if canonicalPath.Some? then L.(canPath := canonicalPath) else L
  }

  /** What one run does, from the start of `genchanges`. */
  function Reconcile(fs: Fs, tools: Tools, opts: Options, outdir: string, oldfile: string,
                     origfile: string, maxdiffs: int): Run
  {
    if opts.noAct then Run(NoAction, fs)
    else
      match LoadSpec(fs, Some(outdir))
      case Failure(e) => Run(Crashed(BadIndex(e)), fs)
      case Success(L) =>
        var oldS := SmartStat(fs, oldfile);
        var origS := SmartStat(fs, origfile);
        if origS.None? then Run(SourceMissing, fs)
        else if oldS.None? then
          match LinkFs(fs, origfile + origS.value.ext, oldfile + origS.value.ext)
          case Failure(e) => Run(Crashed(OsFailure(e)), fs)
          case Success(fs1) => Run(InitialRun, fs1)
        else if oldS.value.ino == origS.value.ino then Run(HardlinkUnbroken, fs)
        else
          var oldc := SmartOpen(fs, tools, oldfile).value;
          Regenerate(fs, tools, opts, outdir, oldfile, origfile, maxdiffs,
                     WithCanon(L, opts.canonicalPath), oldS.value.ext, origS.value.ext, oldc)
  }

  /** From line 250 on: the new content is linked or decompressed to
      `newfile` and compared with the old one. */
  function Regenerate(fs: Fs, tools: Tools, opts: Options, outdir: string, oldfile: string,
                      origfile: string, maxdiffs: int, L: Ledger, oldext: string, origext: string,
                      oldc: string): (r: Run)
    ensures r.outcome == ContentUnchanged || r.outcome == Changed || r.outcome.Crashed?
  {
    var newfile := NewFile(oldfile);
    var fs1 := TryUnlinkFs(fs, newfile);
    match SmartLinkFs(fs1, tools, origfile, newfile)
    case Failure(e) => Run(Crashed(LinkFailure(e)), fs1)
    case Success(fs2) =>
      var newc := Content(fs2, newfile).value;
      if SizeSha1(tools, newc) == SizeSha1(tools, oldc) then
        Run(ContentUnchanged, UnlinkFs(fs2, newfile).value)
      else
        Publish(fs2, tools, opts.patchName, outdir, oldfile, origfile, maxdiffs, L, oldext, origext, oldc, newc)
  }

  /** `diff --ed - newfile | gzip -c -9 > difffile.gz`, fed the old content. */
  function WriteDiff(fs: Fs, tools: Tools, outdir: string, patchName: string, oldc: string, newc: string): (r: Fs)
    ensures IsFile(r, DiffFile(outdir, patchName) + ".gz")
  {
    WriteFs(fs, DiffFile(outdir, patchName) + ".gz", tools.gzip(tools.edDiff(oldc, newc)))
  }

  /** The ledger `dump` writes after a change, once the patch is on disk:
      the patch's entry has the old content's identity as its base and the
      patch's own identity as read back through `smartopen`. */
  function Recorded(fs: Fs, tools: Tools, patchName: string, outdir: string, L: Ledger,
                    oldc: string, newc: string): Ledger
    requires IsFile(fs, DiffFile(outdir, patchName) + ".gz")
  {
    var difc := SmartOpenOf(fs, tools, DiffFile(outdir, patchName));
    Advance(L, patchName, SizeSha1(tools, oldc), SizeSha1(tools, difc), SizeSha1(tools, newc))
  }

  /** The state a sequence of calls reached, and the error that stopped
      it, if any. */
  datatype Step = Step(fs: Fs, err: Option<OsError>)

  /** `os.unlink(oldfile + oldext)`, `os.link(origfile + origext, oldfile +
      origext)`, `os.unlink(newfile)`: the old copy is replaced by a hard
      link of the original, stopping at the first call that raises. */
  function Replace(fs: Fs, oldfile: string, origfile: string, oldext: string, origext: string): Step {
    match UnlinkFs(fs, oldfile + oldext)
    case Failure(e) => Step(fs, Some(e))
    case Success(fs4) =>
      match LinkFs(fs4, origfile + origext, oldfile + origext)
      case Failure(e) => Step(fs4, Some(e))
      case Success(fs5) =>
        match UnlinkFs(fs5, NewFile(oldfile))
        case Failure(e) => Step(fs5, Some(e))
        case Success(fs6) => Step(fs6, None)
  }

  /** From line 261 on: the patch is written, recorded and the old copy
      replaced; `Index` is opened for writing (truncated) before `dump`
      runs and holds what `dump` wrote, up to a crash. */
  function Publish(fs: Fs, tools: Tools, patchName: string, outdir: string, oldfile: string,
                   origfile: string, maxdiffs: int, L: Ledger, oldext: string, origext: string,
                   oldc: string, newc: string): (r: Run)
    ensures r.outcome == Changed || r.outcome.Crashed?
  {
    var fs3 := WriteDiff(fs, tools, outdir, patchName, oldc, newc);
    var step := Replace(fs3, oldfile, origfile, oldext, origext);
    if step.err.Some? then Run(Crashed(OsFailure(step.err.value)), step.fs)
    else
      var d := DumpSpec(Recorded(fs3, tools, patchName, outdir, L, oldc, newc), maxdiffs, Some(outdir));
      Run(if d.ok then Changed else Crashed(DumpFailure), WriteIndex(step.fs, outdir, d))
  }

  /** `smartopen(difffile)` just after `difffile.gz` was written: when no
      uncompressed `difffile` exists this is the decompressed patch. */
  function SmartOpenOf(fs: Fs, tools: Tools, file: string): (c: string)
    requires IsFile(fs, file + ".gz")
    ensures SmartOpen(fs, tools, file) == Some(c)
  {
    assert file + ".gz" in Variants(file);
    SmartOpen(fs, tools, file).value
  }

  /** `open(outdir + "/Index", "w")`, then `dump` into it. */
  function WriteIndex(fs: Fs, outdir: string, d: DumpOut): (r: Fs)
    ensures Content(r, IndexFile(outdir)) == Some(d.text)
  {
    var idx := IndexFile(outdir);
    WriteFs(TryUnlinkAll(WriteFs(fs, idx, ""), d.unlinked), idx, d.text)
  }

  /** `genchanges` itself, over the one filesystem of the run. */
  method GenChanges(fs: FileSystem, tools: Tools, opts: Options, outdir: string, oldfile: string,
                    origfile: string, maxdiffs: int) returns (outcome: Outcome)
    modifies fs
    ensures Run(outcome, fs.state) == Reconcile(old(fs.state), tools, opts, outdir, oldfile, origfile, maxdiffs)
  {
    if opts.noAct {
      return NoAction;
    }
    var upd := new Updates(Some(outdir), maxdiffs);
    var loadErr := upd.Load(fs);
    if loadErr.Some? {
      return Crashed(BadIndex(loadErr.value));
    }
    var oldS := SmartStat(fs.state, oldfile);
    var origS := SmartStat(fs.state, origfile);
    if origS.None? {
      return SourceMissing;
    }
    if oldS.None? {
      var e := fs.Link(origfile + origS.value.ext, oldfile + origS.value.ext);
      if e.Some? {
        return Crashed(OsFailure(e.value));
      }
      return InitialRun;
    }
    if oldS.value.ino == origS.value.ino {
      return HardlinkUnbroken;
    }
    var oldc := SmartOpen(fs.state, tools, oldfile).value;
    if opts.canonicalPath.Some? {
      upd.canPath := opts.canonicalPath;
    }
    outcome := RegenerateStep(fs, upd, tools, opts, outdir, oldfile, origfile, oldS.value.ext, origS.value.ext, oldc);
  }

  /** Lines 250-259 of `genchanges`, with the loaded ledger in `upd`. */
  method RegenerateStep(fs: FileSystem, upd: Updates, tools: Tools, opts: Options, outdir: string,
                        oldfile: string, origfile: string, oldext: string, origext: string,
                        oldc: string) returns (outcome: Outcome)
    requires upd.readpath == Some(outdir)
    modifies fs, upd
    ensures Run(outcome, fs.state)
            == Regenerate(old(fs.state), tools, opts, outdir, oldfile, origfile, old(upd.max),
                          old(upd.Model()), oldext, origext, oldc)
  {
    var newfile := NewFile(oldfile);
    fs.TryUnlink(newfile);
    var le := fs.SmartLink(tools, origfile, newfile);
    if le.Some? {
      return Crashed(LinkFailure(le.value));
    }
    var newc := Content(fs.state, newfile).value;
    if SizeSha1(tools, newc) == SizeSha1(tools, oldc) {
      var _ := fs.Unlink(newfile);
      return ContentUnchanged;
    }
    outcome := PublishStep(fs, upd, tools, opts.patchName, outdir, oldfile, origfile, oldext, origext, oldc, newc);
  }

  /** Lines 261-283 of `genchanges`. */
  method PublishStep(fs: FileSystem, upd: Updates, tools: Tools, patchName: string, outdir: string,
                     oldfile: string, origfile: string, oldext: string, origext: string,
                     oldc: string, newc: string) returns (outcome: Outcome)
    requires upd.readpath == Some(outdir)
    modifies fs, upd
    ensures Run(outcome, fs.state)
            == Publish(old(fs.state), tools, patchName, outdir, oldfile, origfile, old(upd.max),
                       old(upd.Model()), oldext, origext, oldc, newc)
  {
    ghost var L := upd.Model();
    var difffile := DiffFile(outdir, patchName);
    fs.Write(difffile + ".gz", tools.gzip(tools.edDiff(oldc, newc)));
    var difc := SmartOpenOf(fs.state, tools, difffile);
    upd.history := upd.history[patchName := Slots(Some(SizeSha1(tools, oldc)), Some(SizeSha1(tools, difc)))];
    upd.order := upd.order + [patchName];
    upd.current := Some(SizeSha1(tools, newc));
    assert upd.Model() == Recorded(fs.state, tools, patchName, outdir, L, oldc, newc);
    var err := ReplaceStep(fs, oldfile, origfile, oldext, origext);
    if err.Some? {
      return Crashed(OsFailure(err.value));
    }
    var idx := IndexFile(outdir);
    fs.Write(idx, "");
    var text, ok := upd.Dump(fs);
    fs.Write(idx, text);
    outcome := if ok then Changed else Crashed(DumpFailure);
  }

  method ReplaceStep(fs: FileSystem, oldfile: string, origfile: string, oldext: string, origext: string)
    returns (err: Option<OsError>)
    modifies fs
    ensures Step(fs.state, err) == Replace(old(fs.state), oldfile, origfile, oldext, origext)
  {
    err := fs.Unlink(oldfile + oldext);
    if err.Some? {
      return;
    }
    err := fs.Link(origfile + origext, oldfile + origext);
    if err.Some? {
      return;
    }
    err := fs.Unlink(NewFile(oldfile));
  }
}
