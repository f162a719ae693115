# dak archive tools: a verified model

This project models four parts of dak, the Debian archive kit (here the
Tanglu fork), and proves properties of each:

- **Index diffs** (`dak/generate_index_diffs.py`). The `Updates` ledger lives
  in a directory's `Index` file. It records the SHA-1 and size of the current
  `Packages` file, plus one history entry and one patch entry for every ed
  diff kept beside it. The model covers parsing `Index`, rotating old diffs
  out when there are more than `max`, writing `Index` back, and `genchanges`.
  `genchanges` compares the archived copy with the current file, writes a
  diff and relinks the copy. The filesystem is a table from names to inode
  numbers and from inodes to contents, held by the `FileSystem` class.
  `gzip`, `bzip2`, `diff --ed` and SHA-1 are opaque functions in a `Tools`
  record.
- **Parsing helpers** (`dak/lib/utils.py`). The model covers `parse_changes`,
  with its three signing rules and its line-by-line loop, and
  `build_file_list` with `extract_component_from_section`. It also covers the
  string helpers `split_args`, `poolify`, `join_with_commas_and`,
  `prefix_multi_line_string`, `str_isnum`, `arch_compare_sw`, `result_join`,
  `size_type`, `find_next_free` and `clean_symlink`, and the part of
  `check_signature` that reads gpgv's status output and decides.
- **Contents files** (`dak/contents.py`). The model covers the cached header,
  the tab layout of each `path<TAB…>package` line and the choice of suites
  and architectures.
- **proposed-updates cleaning** (`dak/clean_proposed_updates.py`). The model
  covers loading the package/architecture/version table (`init_pu`), judging
  one `.changes` file against it (`check_changes`) and walking a release
  team admin file (`check_joey`).

Python's exceptions become `Result` and `Option` values. Examples are a
`KeyError` in `dump`, an `IndexError` in `Updates.__init__`,
`changes_parse_error_exc` and `invalid_dsc_format_exc`. Each error case of
the code is a constructor of an error datatype.

Some inputs become parameters:

- In `check_changes` the three file-name patterns `re_isadeb`, `re_isdeb`
  and `re_issource` are a classifier parameter `kind`.
- The configured components (`Cnf["Component::…"]`) are a set.
- The database rows are a sequence.
- The module-level `pu` dictionary is a field of the `Cleaner` class that
  `init_pu` updates. The checks take it as a parameter because they only
  read it.
- `check_changes` walks its file dictionary in an order Python leaves
  unspecified. The model picks each next file with a nondeterministic
  choice, and proves the verdict does not depend on that order.

## Model

| member | source | states |
|---|---|---|
| IndexFs.Content | dak/generate_index_diffs.py:81-83 | Reading a path yields content exactly when the path names an existing file. |
| IndexFs.LinkFs | dak/generate_index_diffs.py:72 | `os.link` succeeds exactly when the source exists and the target does not. The target then shares the source's inode and content, and no other path changes. |
| IndexFs.UnlinkFs | dak/generate_index_diffs.py:59-60 | `os.unlink` succeeds exactly when the file exists. Afterwards it is gone and every other path reads as before. |
| IndexFs.WriteFs | dak/generate_index_diffs.py:281-283 | After an `open(p, "w")` write the path holds the written text. An existing name keeps its inode. A new file changes no other path. |
| IndexFs.TryUnlinkFs | dak/generate_index_diffs.py:58-62 | `tryunlink` never fails. The path is absent afterwards, and every other path keeps its content and existence. |
| IndexFs.TryUnlinkAllFrame | dak/generate_index_diffs.py:158-166 | Unlinking a list of paths leaves a path that is not in the list untouched. |
| IndexFs.TryUnlinkAllRemoves | dak/generate_index_diffs.py:158-166 | After unlinking a list of paths none of them exists, and no file appears. |
| IndexFs.PrimitivesKeepValid | dak/generate_index_diffs.py:58-90 | Link, unlink, write and tryunlink keep every name pointing at an allocated inode. |
| IndexFs.SizeSha1 | dak/generate_index_diffs.py:188-192 | `sizesha1` gives a digest token and the exact byte length of the content. |
| IndexFs.SmartStat | dak/generate_index_diffs.py:64-68 | `smartstat` finds a variant exactly when one of `f`, `f.gz`, `f.bz2` exists. The result is the first that exists, in that order, with its inode. |
| IndexFs.SmartOpen | dak/generate_index_diffs.py:81-90 | `smartopen` yields content exactly when `smartstat` finds a variant. The content is that variant's, decompressed according to its suffix. |
| IndexFs.SmartLinkFs | dak/generate_index_diffs.py:70-79 | `smartlink` raises `IOError` when no variant exists and fails when the plain target already exists. On success the target holds what `smartopen` of the source reads, and no other path changes. |
| IndexFs.FileSystem.constructor | dak/generate_index_diffs.py:58-90 | The filesystem object starts in the given state. |
| IndexFs.FileSystem.Link | dak/generate_index_diffs.py:72 | The in-place link applies `LinkFs` or reports its error, leaving the state unchanged on error. |
| IndexFs.FileSystem.Unlink | dak/generate_index_diffs.py:59-60 | The in-place unlink applies `UnlinkFs` or reports its error. |
| IndexFs.FileSystem.Write | dak/generate_index_diffs.py:281-283 | The in-place write applies `WriteFs`. |
| IndexFs.FileSystem.TryUnlink | dak/generate_index_diffs.py:58-62 | The in-place `tryunlink` applies `TryUnlinkFs`. |
| IndexFs.FileSystem.SmartLink | dak/generate_index_diffs.py:70-79 | The in-place `smartlink` applies `SmartLinkFs` or reports its error. |
| IndexLedger.SetSlot | dak/generate_index_diffs.py:121 | Storing into slot 0 (history) or slot 1 (patch) sets that slot and leaves the other alone. |
| IndexLedger.Record | dak/generate_index_diffs.py:118-121 | A block line sets its slot of the named entry. A name not yet in the table is appended to the order; a known name keeps its position. |
| IndexLedger.RecordKeyed | dak/generate_index_diffs.py:118-121 | Recording a line keeps the order free of repeats and in step with the table. |
| IndexLedger.ParseIndexKeyed | dak/generate_index_diffs.py:110-146 | An `Index` that parses lists each entry exactly once, in the order table as in the history table. |
| IndexLedger.LoadMissing | dak/generate_index_diffs.py:108-109 | With no `readpath`, an empty one or no `Index` file, the ledger stays empty. |
| IndexLedger.Updates.constructor | dak/generate_index_diffs.py:101-107 | A new ledger is empty and keeps `readpath` and `max`. |
| IndexLedger.Updates.Load | dak/generate_index_diffs.py:108-149 | The reading loop of `__init__` fills the ledger with what `ParseIndex` gives, or fails with the `IndexError`/`ValueError` it raises. |
| IndexLedger.Updates.ReadHashs | dak/generate_index_diffs.py:114-123 | `read_hashs` stops at the end of the file or at the first line not starting with a space. It records every line before that, and the outer loop resumes from that line. |
| IndexLedger.Updates.EvictOldest | dak/generate_index_diffs.py:158-166 | The eviction loop deletes the first `c` names from the table and unlinks their patch files, or stops at the `KeyError`. The order and the header stay. |
| IndexLedger.Updates.Dump | dak/generate_index_diffs.py:151-174 | `dump` writes the text of `DumpSpec`, leaves the ledger as `DumpSpec` says and unlinks exactly the patch files it names. |
| IndexLedger.WriteBlock | dak/generate_index_diffs.py:169-174 | One block-writing loop appends each name's line, failing when a slot is missing. |
| IndexLedgerFacts.EvictEffect | dak/generate_index_diffs.py:158-166 | A completed eviction removes exactly the evicted names and unlinks their patch files in order. It always completes when the names are distinct and present. |
| IndexLedgerFacts.DumpRotation | dak/generate_index_diffs.py:158-166 | Within `max`, `dump` changes nothing and unlinks nothing. Beyond it, only the newest `max` names stay (none at all for a negative `max`), the older entries lose their records and patch files, and the header is kept. |
| IndexLedgerFacts.DumpIdempotent | dak/generate_index_diffs.py:151-174 | A second `dump` right after a completed one evicts nothing, unlinks nothing and writes the same text. |
| IndexLedgerFacts.BlockLinesAt | dak/generate_index_diffs.py:169-174 | The `k`th line of a block is the line of the `k`th name in the order. |
| IndexLedgerFacts.EmitWF | dak/generate_index_diffs.py:152-174 | For a well-formed ledger, the writing part of `dump` completes and writes the rendered lines. |
| IndexLedgerFacts.LayoutConcat | dak/generate_index_diffs.py:152-174 | The written text is header, `SHA1-History:`, history block, `SHA1-Patches:`, patches block. |
| IndexLedgerFacts.LayoutLines | dak/generate_index_diffs.py:152-174 | Each piece `dump` writes is one newline-terminated line. |
| IndexLedgerFacts.ParseBlockStep | dak/generate_index_diffs.py:116-121 | An indented line `digest size name` is read back as that digest, size and name. |
| IndexLedgerFacts.ParseBlockEnd | dak/generate_index_diffs.py:117 | A line that is not indented, or the end of the file, ends a block. |
| IndexLedgerFacts.ParseBlockLines | dak/generate_index_diffs.py:114-123 | A run of written block lines is read back as the records of its names, in order. |
| IndexLedgerFacts.RecordAllNew | dak/generate_index_diffs.py:118-121 | Reading the History block of distinct new names adds each in order with only its history slot set, and leaves earlier entries alone. |
| IndexLedgerFacts.RecordAllExisting | dak/generate_index_diffs.py:118-121 | Reading the Patches block sets only the patch slot of names already present, and leaves the order alone. |
| IndexLedgerFacts.ParseOneBlock | dak/generate_index_diffs.py:131-137 | A keyword line followed by block lines is read as that block. |
| IndexLedgerFacts.RecordBoth | dak/generate_index_diffs.py:125-146 | Reading both blocks over the header fields rebuilds a well-formed ledger. |
| IndexLedgerFacts.ParseRender | dak/generate_index_diffs.py:110-174 | What `dump` writes for a well-formed ledger parses back to that ledger. An empty canonical path reads back as absent. |
| IndexLedgerFacts.DumpRoundTrip | dak/generate_index_diffs.py:110-174 | For a well-formed ledger, `dump` always completes. The ledger it leaves is well formed, and the next `Updates(readpath)` reads it back from the text written. |
| IndexLedgerFacts.PrefixEvicts | dak/generate_index_diffs.py:158-166 | Evicting the oldest `c` names of a well-formed ledger completes and removes exactly them. |
| IndexLedgerFacts.EmitRoundTrip | dak/generate_index_diffs.py:152-174 | Writing a well-formed ledger completes, keeps it, and reads back. |
| IndexLedgerFacts.SuffixKeyed | dak/generate_index_diffs.py:163-166 | Dropping the oldest `c` names keeps the ledger well formed. |
| IndexGenChanges.Advance | dak/generate_index_diffs.py:271-275 | A new patch adds an entry holding the old identity and the diff's identity, appends its name to the order and makes the new identity current. |
| IndexGenChanges.SmartOpenOf | dak/generate_index_diffs.py:268 | Just after `difffile.gz` is written, `smartopen(difffile)` finds content. |
| IndexGenChanges.WriteIndex | dak/generate_index_diffs.py:281-283 | `Index` then holds what `dump` wrote. |
| IndexGenChanges.GenChanges | dak/generate_index_diffs.py:194-283 | `genchanges` ends as `Reconcile` says: a no-act run, a missing original, an initial run, an unbroken hard link, unchanged content, a published change, or a crash. It leaves the filesystem `Reconcile` gives. What unchanged content leaves behind is stated by `IndexGenChangesFacts.UnchangedKeepsFiles` and `IndexGenChangesFacts.UnchangedKeepsIndex`. |
| IndexGenChanges.RegenerateStep | dak/generate_index_diffs.py:248-259 | Lines 248-259 of `genchanges` lead to the outcome and filesystem `Regenerate` gives. |
| IndexGenChanges.PublishStep | dak/generate_index_diffs.py:261-283 | Writing the diff, recording it, replacing the old copy and rewriting `Index` lead to what `Publish` gives. |
| IndexGenChanges.ReplaceStep | dak/generate_index_diffs.py:277-279 | Unlinking the old copy, linking the original into its place and unlinking `newfile` lead to what `Replace` gives. |
| IndexGenChangesFacts.UnlinkedArePatches | dak/generate_index_diffs.py:159-161 | Every path a completed `dump` unlinks is `readpath/name.gz` for some name. |
| IndexGenChangesFacts.WriteIndexNames | dak/generate_index_diffs.py:281-283 | Rewriting `Index` touches no other name except the patch files `dump` removes. |
| IndexGenChangesFacts.ReconcileValid | dak/generate_index_diffs.py:194-283 | A run never leaves a name pointing at an inode not yet handed out. |
| IndexGenChangesFacts.RegenerateUnchanged | dak/generate_index_diffs.py:248-259 | When the regenerated copy matches the old one, every name other than `newfile` keeps its inode and content, and `newfile` is gone. |
| IndexGenChangesFacts.UnchangedKeepsFiles | dak/generate_index_diffs.py:256-259 | A run that ends on unchanged content leaves every name other than `newfile` as it found it, and `newfile` removed. |
| IndexGenChangesFacts.UnchangedKeepsIndex | dak/generate_index_diffs.py:256-259 | A run that ends on unchanged content leaves `Index` with the content it had. |
| IndexGenChangesFacts.InitialRunLinks | dak/generate_index_diffs.py:218-221 | Without an old copy, the run hard-links the original into place under the original's suffix and leaves `Index` as it was. |
| IndexGenChangesFacts.ReplaceNames | dak/generate_index_diffs.py:277-279 | Replacing the old copy touches no name except the old copy's two spellings and `newfile`. |
| IndexGenChangesFacts.ReplaceLinks | dak/generate_index_diffs.py:277-279 | A completed replacement leaves the old copy as a hard link of the original, under the original's suffix, with the other suffix gone. |
| IndexGenChangesFacts.ReplaceSucceeds | dak/generate_index_diffs.py:277-279 | The replacement completes when the old copy, the original and `newfile` exist and the target name is free. |
| IndexGenChangesFacts.PublishNames | dak/generate_index_diffs.py:261-283 | A published change keeps the inode of every name outside the ones it writes. |
| IndexGenChangesFacts.PublishLinks | dak/generate_index_diffs.py:277-279 | After a published change the old copy has the original's inode. |
| IndexGenChangesFacts.TryUnlinkSmart | dak/generate_index_diffs.py:250 | Removing a stale `newfile` changes nothing that `smartstat` or `smartopen` sees of another file. |
| IndexGenChangesFacts.AdvanceWF | dak/generate_index_diffs.py:271-275 | Recording a fresh patch keeps a ledger well formed. |
| IndexGenChangesFacts.DumpKeepsHeader | dak/generate_index_diffs.py:152-156 | `dump` keeps the current identity and the canonical path. |
| IndexGenChangesFacts.DumpKeepsNewest | dak/generate_index_diffs.py:158-166 | With `max >= 1`, a completed dump keeps the newest entry together with its record. |
| IndexGenChangesFacts.RecordedReadsBack | dak/generate_index_diffs.py:268-283 | The ledger `genchanges` dumps after writing a patch completes, and its text reads back. |
| IndexGenChangesFacts.PublishReadsBack | dak/generate_index_diffs.py:261-283 | Publishing never fails in `dump`. After a published change, `Index` loads back as the dumped ledger. |
| IndexGenChangesFacts.PublishCompletes | dak/generate_index_diffs.py:261-283 | With the old copy and `newfile` in place, every step after the diff succeeds. |
| IndexGenChangesFacts.RegenerateLinks | dak/generate_index_diffs.py:250-251 | `newfile` holds what `smartopen(origfile)` reads, and both the original's and the old copy's variants are kept. |
| IndexGenChangesFacts.RegenerateCompletes | dak/generate_index_diffs.py:248-283 | Once the old copy and the original differ, the rest of a run over a well-formed ledger never crashes. |
| IndexGenChangesFacts.RunNeverCrashes | dak/generate_index_diffs.py:194-283 | A run over a readable, well-formed `Index`, with the touched names apart and at most one variant of the old copy, never crashes. |
| IndexGenChangesFacts.DumpCompletes | dak/generate_index_diffs.py:151-174 | A dump of a well-formed ledger always completes. |
| IndexGenChangesFacts.AdvanceDumpHeader | dak/generate_index_diffs.py:271-283 | After one new patch and a dump, the ledger is well formed, the new identity is current and the canonical path is kept. |
| IndexGenChangesFacts.AdvanceDumpNewest | dak/generate_index_diffs.py:271-283 | With `max >= 1`, the newest entry after that dump is the new patch, based on the old identity. |
| IndexGenChangesFacts.PublishRecords | dak/generate_index_diffs.py:261-283 | After a published change, `Index` loads as the old ledger advanced by the new patch (old identity, diff identity, new current) and rotated to `max`. |
| IndexGenChangesFacts.ChangedReadsBack | dak/generate_index_diffs.py:194-283 | A run that publishes a change leaves an `Index` that records the identities of what `smartopen` read from the old copy and from the original. |
| IndexGenChangesFacts.PublishKeepsOrig | dak/generate_index_diffs.py:261-283 | The original's variants keep their inodes through a publish. |
| IndexGenChangesFacts.PublishOnly | dak/generate_index_diffs.py:277-279 | After a publish only the original's suffix of the old copy exists, and it has the original's inode. |
| IndexGenChangesFacts.PublishRelinks | dak/generate_index_diffs.py:261-283 | After a publish the old copy is linked to the original. |
| IndexGenChangesFacts.RegenerateRelinks | dak/generate_index_diffs.py:248-283 | A changed run through `Regenerate` leaves the old copy linked to the original. |
| IndexGenChangesFacts.ChangedRelinks | dak/generate_index_diffs.py:194-283 | Every run that publishes leaves the old copy linked to the original, with the original untouched. |
| IndexGenChangesFacts.InitialRelinks | dak/generate_index_diffs.py:218-221 | An initial run leaves the old copy linked to the original and `Index` readable as before. |
| IndexGenChangesFacts.LinkedIsQuiet | dak/generate_index_diffs.py:223-225 | An old copy hard-linked to the original stops the run at "hardlink unbroken". |
| IndexGenChangesFacts.RerunQuiet | dak/generate_index_diffs.py:194-283 | Running again over what a run left, with nothing changed in between, finds the hard link unbroken, so the script is idempotent. |
| Changes.FieldLineSpaced | dak/lib/utils.py:209-213 | A `Name : value` line, with any blanks around the colon, is read as that field name and value. |
| Changes.SkipHeader | dak/lib/utils.py:199-205 | Under the dpkg-source rules, skipping the armour header ends on the line after the first blank one, or at the end of the file. |
| Changes.Absorb | dak/lib/utils.py:207-227 | Processing a line keeps field names lower case and only grows the error text. A line is added to the error text only when it is neither a field, nor ` .`, nor a continuation. It fails in two ways, both before any field line: on a continuation line, and on a ` .` line (the `changes[field]` of an unbound `field`). |
| Changes.Next | dak/lib/utils.py:182-227 | One iteration advances the line index, keeps keys lower case and only grows the error text. A raise is never the empty-file error. |
| Changes.Run | dak/lib/utils.py:182-227 | The whole loop ends within the file, keeping those properties. |
| Changes.ParseSpec | dak/lib/utils.py:139-238 | Parsing raises the empty-file error exactly for an empty file. Every successful parse stores the whole text under `filecontents`. |
| Changes.ChopAll | dak/lib/utils.py:171-175 | The reindexing loop yields each line without its last character. |
| Changes.SkipArmourHeader | dak/lib/utils.py:202-204 | The inner skipping loop agrees with `SkipHeader`. |
| Changes.AbsorbLine | dak/lib/utils.py:207-227 | The field-processing part of the loop body agrees with `Absorb`. |
| Changes.ParseChanges | dak/lib/utils.py:139-238 | `parse_changes` on a file's text returns what `ParseSpec` gives. |
| Changes.ScanLines | dak/lib/utils.py:182-230 | The main `while` loop agrees with `Run`. |
| Changes.LoopBody | dak/lib/utils.py:183-227 | One pass of the loop body agrees with `Next`. |
| Changes.ParseSpecLowerKeys | dak/lib/utils.py:210 | Every key of a parsed changes dictionary is lower case. |
| Changes.SignatureNotSigned | dak/lib/utils.py:197-200 | A signature line is never taken for a signed-message line. |
| Changes.NextRecognized | dak/lib/utils.py:182-227 | Without signing rules, an error-free iteration reads one line and recognizes it. A stop is at a signature line. |
| Changes.RunRecognized | dak/lib/utils.py:182-227 | Without signing rules, an error-free run recognizes every line it reads. It ends at the end of the file or just after a signature line. |
| Changes.UnsignedLinesRecognized | dak/lib/utils.py:182-238 | Without signing rules, a successful parse has recognized every line before the first signature line. Any other line would be an error. |
| Changes.NextOutside | dak/lib/utils.py:206-208 | Under the default rules, outside the signed part, a line other than the start of the signed message is skipped unread. |
| Changes.RunOutside | dak/lib/utils.py:206-208 | Under the default rules a run that never meets the start of the signed part adds nothing and records no error. |
| Changes.UnsignedFileIgnored | dak/lib/utils.py:206-233 | Under the default rules a file without a signed section reads as no fields beyond `filecontents`. |
| Changes.StopsAtSignature | dak/lib/utils.py:197-198 | Except in strict mode, lines after the first signature line change nothing. |
| Changes.NextSameLine | dak/lib/utils.py:182-227 | Except in strict mode, an iteration reads only the current line. |
| Changes.NextStrict | dak/lib/utils.py:185-205 | In strict mode, an iteration that continues was not at a blank line and enters the signed part only at its start line. An iteration that stops outside the signed part stopped at a blank line followed by the signature line, or outside any signed part. |
| Changes.StrictEnding | dak/lib/utils.py:185-230 | In strict mode a successful run ends on a blank line followed by the signature line, or ends outside the signed part having met no start line of one. |
| Changes.StrictStaysInside | dak/lib/utils.py:199-230 | In strict mode, without a signature line, a run that enters the signed part never leaves it. |
| Changes.StrictUnclosed | dak/lib/utils.py:229-230 | In strict mode a file with a signed section but no signature line is always refused. |
| Changes.NextContinuation | dak/lib/utils.py:217-225 | Wherever lines are processed (inside the signed part, or anywhere without signing rules), a continuation line appends its text and a newline to the current field. The first continuation after a non-empty value is separated from it by a newline. |
| Changes.ContinuationStep | dak/lib/utils.py:217-225 | A continuation line, seen through the whole loop, has the same effect. |
| Changes.ContinuedFold | dak/lib/utils.py:217-225 | Continuation lines that end the file, after an earlier continuation, are appended in order to the field. |
| Changes.ContinuationFold | dak/lib/utils.py:209-225 | Continuation lines that end the file, right after a field line, fold into its value as `Folded` says. |
| Changes.NextField | dak/lib/utils.py:209-213 | Wherever lines are processed, a `Name: value` line stores the value under the lower-cased name, makes it the current field and marks the next continuation as its first. |
| Changes.FieldStep | dak/lib/utils.py:209-213 | A field line, seen through the whole loop, has the same effect. |
| Changes.NextDot | dak/lib/utils.py:214-216 | A ` .` line appends a newline to the current field, and raises the unbound-field error when no field has been seen. |
| Changes.NextOrphan | dak/lib/utils.py:217-220 | A continuation line before any field raises the "continuing on from nothing" error, carrying the line. |
| Changes.NextUnparsed | dak/lib/utils.py:226 | Any other non-blank, non-armour line is appended, whole, to the error text and changes nothing else. |
| Changes.ContinuedRun | dak/lib/utils.py:217-225 | After a continuation, `k` more continuation lines, whatever follows them, append their texts in order to the current field. |
| Changes.ContinuationRun | dak/lib/utils.py:209-225 | Right after a field line, `k` continuation lines, whatever follows them, fold into its value as `Folded` says. |
| Changes.FieldRun | dak/lib/utils.py:209-225 | A field line followed by `k` continuation lines, whatever comes next, stores the folded value under the lower-cased name. The run goes on from the line after them. |
| FileList.ExtractComponent | dak/lib/utils.py:109-135 | The section is returned unchanged. The component is empty only when the section itself is empty and configured. It is never bare `non-US`. A section without `/` is its own component when configured, otherwise `main`. A `non-us` section in any case gives `non-US/main`. |
| FileList.ComponentOfHead | dak/lib/utils.py:112-131 | For `comp/rest` with `comp` not starting with `non-us`, the component is `comp`. When `comp` is empty, it is the whole section if configured, otherwise `main`. |
| FileList.NonUsComponent | dak/lib/utils.py:114-124 | A first part starting with `non-us` in any case yields a component spelled `non-US`. |
| FileList.SupportedValue | dak/lib/utils.py:255 | The accepted formats are exactly the numbers from 1.5 to 2.0. |
| FileList.ParsedAt | dak/lib/utils.py:259-270 | The loop reads exactly the lines before the first empty one, each parsed on its own. |
| FileList.BuildFileList | dak/lib/utils.py:244-282 | `build_file_list` returns what `FileListSpec` gives. |
| FileList.GatherOk | dak/lib/utils.py:259-280 | The loop succeeds exactly when every line it reads parses. |
| FileList.GatherError | dak/lib/utils.py:264-270 | A failing loop reports the error of the first line that does not parse. |
| FileList.GatherKeys | dak/lib/utils.py:279-280 | The resulting names are those given beforehand plus those of the lines read. |
| FileList.GatherKept | dak/lib/utils.py:279-280 | A name no line mentions keeps its earlier record. |
| FileList.GatherLast | dak/lib/utils.py:279-280 | A name's record is that of the last line naming it. |
| FileList.FileListNoFiles | dak/lib/utils.py:248-249 | `no_files_exc` is raised exactly when there is no `files` field. |
| FileList.Unparsable | dak/lib/utils.py:269-270 | Every error of a parsed line is `changes_parse_error_exc` carrying that line. |
| FileList.FileListLines | dak/lib/utils.py:252-282 | Past the checks, the result is the fold over the lines. It succeeds exactly when every line read parses, and otherwise reports the first unparsable line. |
| FileList.FileListGather | dak/lib/utils.py:248-282 | A successful call had a `files` field, passed the format check, and parsed every line it read. |
| FileList.FileListKeys | dak/lib/utils.py:259-280 | A successful call maps exactly the names of the lines before the first empty one. |
| FileList.FileListLast | dak/lib/utils.py:279-280 | When several lines name the same file, the last one wins. |
| FileList.EntryWords | dak/lib/utils.py:262-270 | A line parses exactly when it has three words (`.dsc`) or five, and the name is the last word. |
| FileList.DscEntry | dak/lib/utils.py:263-277 | In a `.dsc`, section and priority are `-`, and the component is `-` if configured, otherwise `main`. |
| FileList.EntryOfLine | dak/lib/utils.py:266-280 | The line `md5 size section priority name` gives back its fields and the section's component. |
| FileList.DscEntryOfLine | dak/lib/utils.py:266-280 | The `.dsc` line `md5 size name` gives back its fields. |
| FileList.FormatGate | dak/lib/utils.py:252-256 | A `.dsc` accepts an absent format and any number. Elsewhere the format must be present, numeric and supported. An unreadable number raises `ValueError`, and any other rejection is `nk_format_exc`. |
| FileList.ParseFloatPlain | dak/lib/utils.py:254 | A number starting with a digit and with no trailing blank reads as an unsigned decimal. |
| FileList.ParseUnsignedPoint | dak/lib/utils.py:254 | `w.f` reads as the decimal with digits `wf` and scale `len(f)`. |
| FileList.ParseFloatPoint | dak/lib/utils.py:254 | `float("w.f")` is that decimal. |
| FileList.ParseFloatInt | dak/lib/utils.py:254 | `float` of a written integer is that integer. |
| FileList.IntFormatSupported | dak/lib/utils.py:255 | Among integer formats only 2 is supported. |
| StringUtils.SplitArgs | dak/lib/utils.py:792-798 | Without commas the result is the whitespace words. With commas the pieces rejoin to the input and contain no commas. `fubar` happens exactly for a trailing comma under `dwim`. |
| StringUtils.PoolHash | dak/lib/utils.py:390-393 | The hash directory is a prefix of the source: four characters for `lib…` sources, one otherwise. |
| StringUtils.Poolify | dak/lib/utils.py:385-393 | The pool path is the component directory, then the hash directory, then `source/`. |
| StringUtils.PoolifySource | dak/lib/utils.py:385-393 | Split along its slashes, a pool path ends with the source's own directory. |
| StringUtils.JoinWithCommasAnd | dak/lib/utils.py:649-652 | No items give "nothing", one item gives itself and two items are joined by " and ". Longer lists are described by `JoinWithCommasAndSplit` and `JoinWithCommasAndReadsBack`. |
| StringUtils.JoinWithCommasAndReadsBack | dak/lib/utils.py:649-652 | For two or more items without a comma, the text ends in " and " and the last item. What comes before splits at its commas back into the first item and the other middle items, each after its blank. |
| StringUtils.JoinWithCommasAndSplit | dak/lib/utils.py:649-652 | With three or more items, the first is followed by ", " and the enumeration of the rest. |
| StringUtils.PrefixMultiLineString | dak/lib/utils.py:590-599 | The loop yields the kept, stripped, prefixed lines joined by newlines, with the trailing newline removed. |
| StringUtils.PrefixedNoNewline | dak/lib/utils.py:592-595 | Each output line starts with the prefix and contains no newline. |
| StringUtils.PrefixedLines | dak/lib/utils.py:590-599 | Read back line by line, the output gives the prefixed lines, each starting with the prefix. |
| StringUtils.PrefixedKeepsAll | dak/lib/utils.py:592-595 | With blank lines included there is one output line per input line: the prefix and the stripped line. |
| StringUtils.StrIsNum | dak/lib/utils.py:101-105 | True exactly when every character is a decimal digit, so also for the empty string. |
| StringUtils.ArchCompareSw | dak/lib/utils.py:774-782 | `source` sorts before every other architecture. Others compare with `cmp`. |
| StringUtils.ArchCompareAntisymmetric | dak/lib/utils.py:774-782 | The comparison is antisymmetric and returns 0 only for equal names. |
| StringUtils.ArchCompareTransitive | dak/lib/utils.py:774-782 | The comparison is transitive. With antisymmetry it is a total order on architecture names, so a sort with it is well defined. |
| Text.CmpTransitive | dak/lib/utils.py:782 | Python's `cmp` on strings is transitive. |
| StringUtils.Filled | dak/lib/utils.py:580-585 | Each field keeps its value, with `None` written as "". |
| StringUtils.ResultJoin | dak/lib/utils.py:579-586 | No fields give "". One field gives itself, with `None` as "". |
| StringUtils.ResultJoinSplit | dak/lib/utils.py:579-586 | Splitting a row joined with a separator no field contains gives the fields back. |
| StringUtils.SizeScale | dak/lib/utils.py:505-512 | Sizes up to 10240 are bytes, then kilobytes up to 10240 of them, then megabytes. The number is the size floor-divided by the unit. |
| StringUtils.SizeTypeReadsBack | dak/lib/utils.py:505-513 | The text is two words. The first reads back with `int()` as a number `n`, and the second names the unit: B up to 10240 bytes, KB up to 10240 kilobytes, MB beyond. The size lies between `n` and `n + 1` of those units. |
| StringUtils.LinkDepth | dak/lib/utils.py:1044-1046 | `clean_symlink` always climbs at least one level. |
| StringUtils.CleanSymlink | dak/lib/utils.py:1042-1047 | The result climbs one `../` per piece of the link's directory below the root, then names the target with `root` taken off. Where that leads is stated by `CleanSymlinkRelative`. |
| StringUtils.CleanSymlinkRelative | dak/lib/utils.py:1042-1047 | For a link `root/d1/…/dk/name` (k at least 1, no piece empty) and a target `root/t`, the result climbs exactly k levels, back to `root`, and then names `t`. |
| StringUtils.CleanSymlinkAtRoot | dak/lib/utils.py:1044-1046 | A link directly in `root` still climbs one level: its result is `../t`. |
| StringUtils.FindNextFree | dak/lib/utils.py:567-575 | The probing loop agrees with `Probe` over the set of existing paths. |
| StringUtils.ProbeFinds | dak/lib/utils.py:567-575 | A returned name does not exist, is `dest.k` for some `k` below the limit, and every name tried before it exists. |
| StringUtils.ProbeGivesUp | dak/lib/utils.py:570-574 | `tried_too_hard_exc` is raised exactly when the limit is reached or every alternative below it exists. The last alternative generated is therefore never offered. |
| Signature.TaintFreeChars | dak/lib/utils.py:42 | A name passing the taint check is non-empty and holds only name characters, except perhaps one final newline. |
| Signature.TaintFreeNewline | dak/lib/utils.py:42 | One closing newline passes the taint check; two do not. |
| Signature.ClassifiedAt | dak/lib/utils.py:908-920 | Each status line is classified on its own. |
| Signature.ParseStatus | dak/lib/utils.py:906-925 | The status loop yields the keywords and complaints that `StatusOf` gives. |
| Signature.FoldFaultsGrow | dak/lib/utils.py:906-925 | Complaints only accumulate. |
| Signature.FoldKeys | dak/lib/utils.py:920-925 | A keyword is gathered exactly when it was there before or some well-formed line carries it. |
| Signature.FoldKeeps | dak/lib/utils.py:921-925 | A gathered keyword keeps its arguments while no later line mentions it. |
| Signature.FoldFirst | dak/lib/utils.py:921-923 | A keyword that may not repeat keeps the arguments of its first line. |
| Signature.FoldStays | dak/lib/utils.py:921-923 | Once such a keyword is gathered, nothing replaces it. |
| Signature.FoldLast | dak/lib/utils.py:921-925 | `NODATA` and `SIGEXPIRED` keep their last line's arguments. |
| Signature.FoldClean | dak/lib/utils.py:906-925 | The loop adds no complaint exactly when every line is well formed and only `NODATA` and `SIGEXPIRED` repeat. |
| Signature.CheckSignature | dak/lib/utils.py:871-1003 | A tainted signature name rejects the signature with that reason. So does a tainted, non-empty data name. Otherwise the verdict is `Judge` of the parsed status and the exit status. |
| Signature.JudgeAccepts | dak/lib/utils.py:928-1003 | A fingerprint is returned exactly when the status is clean, gpgv exited 0, the keywords are exactly `VALIDSIG`, `GOODSIG` and `SIG_ID`, and `VALIDSIG` has an argument. The fingerprint is that argument, with no rejection. |
| Signature.JudgeReasons | dak/lib/utils.py:928-1003 | Every rejection has a reason, and every reason means a rejection. |
| Signature.FaultsReject | dak/lib/utils.py:928-932 | Complaints about the status output reject the signature, with exactly those complaints as the reason. |
| Signature.UnknownRejects | dak/lib/utils.py:991-1001 | An unknown keyword rejects the signature whatever else gpgv said. |
| Signature.MissingKeyReported | dak/lib/utils.py:944-952 | `NO_PUBKEY` rejects the signature, reporting the key id when given. It suppresses the "failed to check" reason of `ERRSIG`. |
| Signature.BareNoPubkey | dak/lib/utils.py:947-952 | The code as written raises `NameError` on a bare `NO_PUBKEY` status line. The corrected verdict reports a missing key with no id. |
| Signature.OneEntryStatus | dak/lib/utils.py:906-925 | A one-line status with one keyword gathers exactly it. |
| Signature.AsWrittenAgrees | dak/lib/utils.py:928-1003 | Everywhere away from a bare `NO_PUBKEY` the code as written gives the corrected verdict. |
| ContentsFiles.NumTabs | dak/contents.py:231-232 | At least one tab. The number of tabs keeps the path plus the tabs within column 53, and one more tab would pass it. |
| ContentsFiles.NumTabsOne | dak/contents.py:231-232 | A single tab is used exactly from path length 38 on. |
| ContentsFiles.NumTabsMonotone | dak/contents.py:231-232 | A longer path never gets more tabs. |
| ContentsFiles.Tabs | dak/contents.py:233 | `'\t' * n` is `n` tabs. |
| ContentsFiles.RowRoundTrip | dak/contents.py:233 | A row's line is one line and reads back as the row. |
| ContentsFiles.BodyRoundTrip | dak/contents.py:226-233 | The written rows give one line per row, each decoding to its row. |
| ContentsFiles.HeaderText | dak/contents.py:223-224 | A header is written exactly when it is truthy. |
| ContentsFiles.Resolve | dak/contents.py:191-205 | A set header is kept. Without `Contents::Header` the header is `False`. With it, the header is the template's text, or `False` when reading the template fails. |
| ContentsFiles.ResolveCached | dak/contents.py:191-205 | Once resolved, later calls return the cached header whatever the configuration and the template then hold. |
| ContentsFiles.HeaderHandlerRaises | dak/contents.py:198-201 | As written, an unreadable configured template raises `NameError` in the handler. The corrected resolution gives `False`. |
| ContentsFiles.AsWrittenAgrees | dak/contents.py:191-205 | In every other case the code as written resolves as the corrected one. |
| ContentsFiles.Contents.constructor | dak/contents.py:178-179 | The header starts unset. |
| ContentsFiles.Contents.GetHeader | dak/contents.py:184-205 | `_getHeader`, with the handler corrected, caches and returns the resolved header. |
| ContentsFiles.Contents.GetHeaderAsWritten | dak/contents.py:184-205 | `_getHeader` as written returns or raises what `ResolveAsWritten` says, and caches only on success. |
| ContentsFiles.Contents.WriteContentFile | dak/contents.py:210-236 | The file is the truthy header followed by one line per row of the result set, in order. |
| ContentsFiles.WrittenRows | dak/contents.py:221-233 | After the header, a written file reads back as its rows, in order. |
| ContentsFiles.Suites | dak/contents.py:331-340 | Without the `Suite` option every configured suite is used. Otherwise the suites are `split_args` of the option. |
| ContentsFiles.Named | dak/contents.py:348-350 | Each architecture named in the option is paired with its id, in order. |
| ContentsFiles.DeliveredFilters | dak/contents.py:352-359 | The database rows kept are exactly those other than `source` and `all`. |
| ContentsFiles.Arches | dak/contents.py:342-361 | `_arches`, with either loop, returns what `ArchesSpec` gives. |
| ContentsFiles.ArchesInconsistent | dak/contents.py:346-361 | A pseudo-architecture named in the `Arch` option is kept, while the database branch never yields `source`. |
| ProposedUpdates.LeadingDigitsRun | dak/lib/utils.py:33 | The leading run of digits is all digits and is followed by a non-digit or the end. |
| ProposedUpdates.StripEpochShape | dak/lib/utils.py:33 | Removing the epoch removes nothing, or a non-empty run of digits and its colon. |
| ProposedUpdates.EpochRemoved | dak/lib/utils.py:33 | Any epoch, leading zeros included, is removed, and only the epoch. |
| ProposedUpdates.NoEpochKept | dak/lib/utils.py:33 | A version without an epoch is left alone. |
| ProposedUpdates.PutOther | dak/clean_proposed_updates.py:149-155 | Storing a row leaves every other (package, architecture) pair alone. |
| ProposedUpdates.LoadLatest | dak/clean_proposed_updates.py:149-155 | The last row for a (package, architecture) pair is the one kept. |
| ProposedUpdates.LoadUntouched | dak/clean_proposed_updates.py:149-155 | A pair no row mentions keeps what the table held. |
| ProposedUpdates.LoadKeys | dak/clean_proposed_updates.py:153-154 | The packages in the table are those it held and those of the rows. |
| ProposedUpdates.FateKept | dak/clean_proposed_updates.py:57-95 | An unrecognised name is fatal. Source pieces other than the `.dsc` are dropped without being counted. A binary or `.dsc` stays exactly when `pu` lacks it or holds its version once the epoch is stripped, and it is superseded exactly otherwise. |
| ProposedUpdates.JudgeCases | dak/clean_proposed_updates.py:56-106 | The file is moved exactly when nothing is kept. It "lost files" exactly when something is kept beside something superseded. It is fine exactly when something is kept and nothing is superseded. |
| ProposedUpdates.TarballOnly | dak/clean_proposed_updates.py:88-99 | As written, a changes file listing only a tarball, or no file at all, raises `NameError` on `pu_version`. The corrected verdict is "no files left". |
| ProposedUpdates.AsWrittenAgrees | dak/clean_proposed_updates.py:88-106 | Once some file's version was looked up, the code as written and the corrected one agree. |
| ProposedUpdates.InstallLine | dak/clean_proposed_updates.py:116-128 | An install line `type name` with a known install type asks for `name` to be checked. |
| ProposedUpdates.JoeyStep | dak/clean_proposed_updates.py:116-128 | The run over the lines from `k` is the action of line `k` followed by the run over the rest. |
| ProposedUpdates.JoeyStops | dak/clean_proposed_updates.py:116-128 | At most one changes file is checked per line. A fatal changes file ends the run, and so does a malformed line. |
| ProposedUpdates.JoeySkips | dak/clean_proposed_updates.py:118 | Lines not mentioning `install` are passed over. |
| ProposedUpdates.Visit | dak/clean_proposed_updates.py:58-95 | One pass of the loop computes the file's fate: classify, look up in `pu`, compare versions. |
| ProposedUpdates.SweepLoop | dak/clean_proposed_updates.py:56-95 | The loop stops at `fubar` exactly when some name is unrecognised. Otherwise it keeps exactly the retained files. The count it ends with is at least the number kept, and it is larger exactly when some file was superseded. |
| ProposedUpdates.Sweep | dak/clean_proposed_updates.py:56-106 | Whatever order the files are visited in, the verdict is `Judge` of the file names, and the files left are the retained ones. |
| ProposedUpdates.SweepStep | dak/clean_proposed_updates.py:71-95 | Visiting a file deletes it unless it is retained, and counts it when it is superseded. |
| ProposedUpdates.SweepDone | dak/clean_proposed_updates.py:97-106 | After every name was visited, what is left is what `Kept` keeps. The verdict follows from how many files are left and the count. |
| ProposedUpdates.CheckChanges | dak/clean_proposed_updates.py:49-106 | An unreadable or unparsable file is a warning. Otherwise the verdict and the files kept are those of `Judge` on the listed names. |
| ProposedUpdates.CheckJoey | dak/clean_proposed_updates.py:110-130 | The line loop's outcomes and error are those of `JoeySpec` over the admin file's lines, with each name checked by `check_changes`. |
| ProposedUpdates.Cleaner.constructor | dak/clean_proposed_updates.py:31 | `pu` starts empty. |
| ProposedUpdates.Cleaner.InitPu | dak/clean_proposed_updates.py:134-155 | `init_pu` stores every row of the query, in order, into `pu`. |

## Left out

- Printing, warnings, `log.error` and the `Options["debug"]`/`Options["verbose"]` output are not modelled. They do not change state or results.
- `main`, `usage` and the command-line parsing of every script are left out. They are dispatch code over the modelled functions.
- The database queries are left out. `init_pu`'s query result, the `arches_q` cursor of `_arches` and the result cursor of `_write_content_file` are sequences of rows. `DBConn().get_architecture_id` is a function parameter.
- `Config()`/`Cnf` are left out. The configured components, suites, `Contents::Header` and the header template's text are parameters.
- In `check_changes` the file-name regexes `re_isadeb`, `re_isdeb` and `re_issource` form the classifier parameter `kind`. The `AttributeError` raised when `re_isadeb` matches but `re_isdeb` does not is therefore not modelled.
- `fubar` (exit) and the `utils.move` of a changes file to the morgue are not performed. They are outcomes: `UnknownType` and `NoFilesLeft` in `check_changes`, and a `JoeyError` in `check_joey`.
- `check_joey`'s `chdir` and the failure of `open_file` on the admin file are left out. The admin file's text is a parameter, and `read` gives each changes file's text.
- Python's dictionary iteration order in `check_changes` is a nondeterministic choice. The verdict is proved order-independent.
- `gpgv` itself, the keyrings and the pipe plumbing of `check_signature` are left out. Its status text, output and exit status are parameters. Reject messages are reasons, not message texts.
- gzip, bzip2, `zcat`/`bzcat`, `diff --ed` and SHA-1 are opaque functions of the `Tools` record. `create_temp_file` and `pipe_file` are modelled as passing the whole content.
- The filesystem is a single device. Directories, permissions, `os.mkdir` of the diff directory and I/O errors other than missing or existing files are not modelled.
- FileList.Supported and FileList.ParseFloat: `float()` is modelled as the exact decimal, not the nearest binary double. Python rounds `2.0000000000000001` to 2.0 and `1.49999999999999999999` to 1.5, so it accepts both as formats, while the model refuses them. Formats written with at most 15 significant digits compare the same way in both.
- StringUtils.CleanSymlink: the model follows the code for a link directly in `root`. Its directory is empty, which still splits into one piece, so the relative target climbs one level above `root` (`CleanSymlinkAtRoot`). The callers place links below `root`.
- `float()` is modelled for plain and decimal-point numbers with an optional sign and surrounding blanks. Exponents, `inf`/`nan` and underscores are not modelled.
- `contents.py`'s `cruft`, `bootstrap`, `generate` and the SQL statements are outside the modelled core.
- The remaining functions of `dak/lib/utils.py` (mail, configuration, locking, `which_conf_file` and others) are outside the modelled core.
- Python 2's comparison of a missing format (`""`) with `1.5` and `2.0` is modelled by its result: a `.changes` without `Format` is refused with `nk_format_exc`.

## Findings

| source | as written | input that shows it | evidently intended | confidence | as-written member | corrected member |
|---|---|---|---|---|---|---|
| dak/lib/utils.py:947-952 | `key` is bound only when `NO_PUBKEY` has an argument, but the reject message always uses it | a status line `[GNUPG:] NO_PUBKEY` with no key id raises `NameError` | reject the signature as made with a key missing from the keyring, without an id | not executed | Signature.BareNoPubkey | Signature.MissingKeyReported |
| dak/contents.py:198-201 | the `except` handler formats its message with `traceback`, which `contents.py` never imports (lines 37-46), and with `%d` on a string | `Contents::Header` configured, with a template that cannot be opened: the handler raises and `self.header` is never set to `False` | log the error and cache `False`, so that later calls return at once | not executed | ContentsFiles.HeaderHandlerRaises | ContentsFiles.ResolveCached |
| dak/clean_proposed_updates.py:88-99 | `pu_version` is bound only after a file's version was looked up, but the "no files left" message always prints it | a `.changes` whose only file is an `.orig.tar.gz` (or that lists no file) raises `NameError` instead of being moved to the morgue | report "no files left" and move the file | not executed | ProposedUpdates.TarballOnly | ProposedUpdates.JudgeCases |
