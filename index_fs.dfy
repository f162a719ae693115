/** The filesystem the index-diff generator works on, and its helpers
    `tryunlink`, `smartstat`, `smartopen` and `smartlink`.

    The operating system is a table from path to inode number plus the
    content of each inode, on a single device. Hard links are two paths
    naming one inode; writing through one changes what the other reads.
    `os.path.isfile` is membership in the table. The external programs the
    script runs (`gzip -d`, `bzip2 -d`, `diff --ed`, `gzip -9`) and
    `apt_pkg.sha1sum` are functions supplied in a `Tools` record. */
module IndexFs {
  import opened Results
  import opened Text

  datatype Fs = Fs(names: map<string, nat>, data: map<nat, string>, nextIno: nat)

  /** Every name points at an inode that has already been handed out, so a
      fresh inode never aliases an existing file. */
  predicate Valid(fs: Fs) {
    forall p :: p in fs.names ==> fs.names[p] < fs.nextIno
  }

  predicate IsFile(fs: Fs, p: string) {
    p in fs.names
  }

  /** What `open(p).read()` gives, or None when `p` does not exist. */
  function Content(fs: Fs, p: string): (c: Option<string>)
    ensures c.Some? <==> IsFile(fs, p)
  {
    if p !in fs.names then None
    else if fs.names[p] in fs.data then Some(fs.data[fs.names[p]])
    else Some("")
  }

  datatype OsError = NoSuchFile(path: string) | FileExists(path: string)

  /** `os.link(src, dst)`. */
  function LinkFs(fs: Fs, src: string, dst: string): (r: Result<Fs, OsError>)
    ensures r.Success? <==> IsFile(fs, src) && !IsFile(fs, dst)
    ensures r.Success? ==>
              src in fs.names && dst in r.value.names && r.value.names[dst] == fs.names[src]
              && Content(r.value, dst) == Content(fs, src)
              && forall q :: q != dst ==> Content(r.value, q) == Content(fs, q)
  {
    if src !in fs.names then Failure(NoSuchFile(src))
    else if dst in fs.names then Failure(FileExists(dst))
    else Success(fs.(names := fs.names[dst := fs.names[src]]))
  }

  /** `os.unlink(p)`. */
  function UnlinkFs(fs: Fs, p: string): (r: Result<Fs, OsError>)
    ensures r.Success? <==> IsFile(fs, p)
    ensures r.Success? ==>
              !IsFile(r.value, p) && forall q :: q != p ==> Content(r.value, q) == Content(fs, q)
  {
    if p in fs.names then Success(fs.(names := fs.names - {p}))
    else Failure(NoSuchFile(p))
  }

  /** `open(p, "w").write(c)`, or a shell redirection `> p`: an existing
      file is truncated in place and keeps its inode, otherwise a new inode
      is created. */
  function WriteFs(fs: Fs, p: string, c: string): (r: Fs)
    ensures Content(r, p) == Some(c)
    ensures IsFile(fs, p) ==> r.names == fs.names
    ensures Valid(fs) && !IsFile(fs, p) ==> forall q :: q != p ==> Content(r, q) == Content(fs, q)
  {
    if p in fs.names then fs.(data := fs.data[fs.names[p] := c])
    else Fs(fs.names[p := fs.nextIno], fs.data[fs.nextIno := c], fs.nextIno + 1)
  }

  /** `tryunlink`: an unlink whose failure only prints a warning. */
  function TryUnlinkFs(fs: Fs, p: string): (r: Fs)
    ensures !IsFile(r, p)
    ensures forall q :: q != p ==> Content(r, q) == Content(fs, q) && (IsFile(r, q) <==> IsFile(fs, q))
  {
    if p in fs.names then fs.(names := fs.names - {p}) else fs
  }

  /** `tryunlink` applied to each path in turn. */
  function TryUnlinkAll(fs: Fs, ps: seq<string>): (r: Fs)
    decreases |ps|
  {
    if ps == [] then fs else TryUnlinkFs(TryUnlinkAll(fs, ps[..|ps| - 1]), ps[|ps| - 1])
  }

  lemma {:induction false} TryUnlinkAllFrame(fs: Fs, ps: seq<string>, q: string)
    requires forall i :: 0 <= i < |ps| ==> ps[i] != q
    ensures Content(TryUnlinkAll(fs, ps), q) == Content(fs, q)
    ensures IsFile(TryUnlinkAll(fs, ps), q) <==> IsFile(fs, q)
    decreases |ps|
  {
    if ps != [] {
      TryUnlinkAllFrame(fs, ps[..|ps| - 1], q);
    }
  }

  lemma {:induction false} TryUnlinkAllRemoves(fs: Fs, ps: seq<string>)
    ensures forall i :: 0 <= i < |ps| ==> !IsFile(TryUnlinkAll(fs, ps), ps[i])
    ensures forall q :: IsFile(TryUnlinkAll(fs, ps), q) ==> IsFile(fs, q)
    decreases |ps|
  {
    if ps != [] {
      TryUnlinkAllRemoves(fs, ps[..|ps| - 1]);
    }
  }

  lemma {:induction false} TryUnlinkAllValid(fs: Fs, ps: seq<string>)
    requires Valid(fs)
    ensures Valid(TryUnlinkAll(fs, ps))
    ensures TryUnlinkAll(fs, ps).nextIno == fs.nextIno
    decreases |ps|
  {
    if ps != [] {
      TryUnlinkAllValid(fs, ps[..|ps| - 1]);
    }
  }

  /** Every primitive keeps the table valid. */
  lemma PrimitivesKeepValid(fs: Fs, p: string, q: string, c: string)
    requires Valid(fs)
    ensures LinkFs(fs, p, q).Success? ==> Valid(LinkFs(fs, p, q).value)
    ensures UnlinkFs(fs, p).Success? ==> Valid(UnlinkFs(fs, p).value)
    ensures Valid(WriteFs(fs, p, c))
    ensures Valid(TryUnlinkFs(fs, p))
  {
  }

  // ---------------------------------------------------------------------
  // The external tools

  datatype Tools = Tools(
    gunzip: string -> string,
    bunzip2: string -> string,
    sha1: string -> Token,
    edDiff: (string, string) -> string,
    gzip: string -> string)

  /** A file's identity as the ledger records it: SHA-1 digest and size. */
  datatype Identity = Identity(digest: string, size: int)

  /** `sizesha1`: the digest and size of an open file's content. */
  function SizeSha1(tools: Tools, c: string): (id: Identity)
    ensures IsToken(id.digest) && id.size == |c|
  {
    Identity(tools.sha1(c), |c|)
  }

  // ---------------------------------------------------------------------
  // smartstat, smartopen, smartlink

  /** The names `smartstat` probes for `file`. */
  function Variants(file: string): set<string> {
    {file, file + ".gz", file + ".bz2"}
  }

  datatype Found = Found(ext: string, ino: nat)

  /** `smartstat`: the first of `file`, `file.gz`, `file.bz2` that exists,
      with its suffix and inode number. */
  function SmartStat(fs: Fs, file: string): (r: Option<Found>)
    ensures r.None? <==> forall v :: v in Variants(file) ==> !IsFile(fs, v)
    ensures r.Some? ==> r.value.ext in {"", ".gz", ".bz2"}
                        && IsFile(fs, file + r.value.ext)
                        && r.value.ino == fs.names[file + r.value.ext]
    ensures r.Some? && r.value.ext != "" ==> !IsFile(fs, file)
    ensures r.Some? && r.value.ext == ".bz2" ==> !IsFile(fs, file + ".gz")
  {
    if IsFile(fs, file) then
      assert file + "" == file;
      Some(Found("", fs.names[file]))
    else if IsFile(fs, file + ".gz") then Some(Found(".gz", fs.names[file + ".gz"]))
    else if IsFile(fs, file + ".bz2") then Some(Found(".bz2", fs.names[file + ".bz2"]))
    else None
  }

  /** The decompressor for a suffix, identity for none. */
  function Decompress(tools: Tools, ext: string, c: string): string {
    if ext == ".gz" then tools.gunzip(c)
    else if ext == ".bz2" then tools.bunzip2(c)
    else c
  }

  /** `smartopen`: the content of the first variant that exists, through
      `zcat` or `bzcat` for the compressed ones. */
  function SmartOpen(fs: Fs, tools: Tools, file: string): (r: Option<string>)
    ensures r.Some? <==> SmartStat(fs, file).Some?
    ensures r.Some? ==> var e := SmartStat(fs, file).value.ext;
                        Content(fs, file + e).Some?
                        && r.value == Decompress(tools, e, Content(fs, file + e).value)
  {
    match SmartStat(fs, file)
    case None => None
    case Some(f) => Some(Decompress(tools, f.ext, Content(fs, file + f.ext).value))
  }

  datatype LinkError = Os(e: OsError) | Missing(file: string)

  /** `smartlink(f, t)`: a hard link when `f` itself exists, otherwise `t` is
      written with the decompressed `f.gz` or `f.bz2`; IOError when none
      exists. */
  function SmartLinkFs(fs: Fs, tools: Tools, f: string, t: string): (r: Result<Fs, LinkError>)
    ensures r.Success? <==> SmartStat(fs, f).Some? && (IsFile(fs, f) ==> !IsFile(fs, t))
    ensures r.Success? ==> Content(r.value, t) == SmartOpen(fs, tools, f)
    ensures r.Success? && Valid(fs) && !IsFile(fs, t) ==>
              Valid(r.value) && forall q :: q != t ==> Content(r.value, q) == Content(fs, q)
  {
    if IsFile(fs, f) then
      match LinkFs(fs, f, t)
      case Failure(e) => Failure(Os(e))
      case Success(fs1) => Success(fs1)
    else if IsFile(fs, f + ".gz") then
      Success(WriteFs(fs, t, tools.gunzip(Content(fs, f + ".gz").value)))
    else if IsFile(fs, f + ".bz2") then
      Success(WriteFs(fs, t, tools.bunzip2(Content(fs, f + ".bz2").value)))
    else Failure(Missing(f))
  }

  // ---------------------------------------------------------------------
  // The imperative shell: the one filesystem the script mutates

  /** The outcome of a call that may fail: on success the new state, on
      failure the old one and the error. */
  predicate Applied<E(==)>(r: Result<Fs, E>, before: Fs, after: Fs, err: Option<E>) {
    match r
    case Success(fs) => after == fs && err.None?
    case Failure(e) => after == before && err == Some(e)
  }

  class FileSystem {
    var state: Fs

    constructor(s: Fs)
      ensures state == s
    {
      state := s;
    }

    method Link(src: string, dst: string) returns (err: Option<OsError>)
      modifies this
      ensures Applied(LinkFs(old(state), src, dst), old(state), state, err)
    {
      var r := LinkFs(state, src, dst);
      if r.Success? {
        state := r.value;
        err := None;
      } else {
        err := Some(r.error);
      }
    }

    method Unlink(p: string) returns (err: Option<OsError>)
      modifies this
      ensures Applied(UnlinkFs(old(state), p), old(state), state, err)
    {
      var r := UnlinkFs(state, p);
      if r.Success? {
        state := r.value;
        err := None;
      } else {
        err := Some(r.error);
      }
    }

    method Write(p: string, c: string)
      modifies this
      ensures state == WriteFs(old(state), p, c)
    {
      state := WriteFs(state, p, c);
    }

    method TryUnlink(p: string)
      modifies this
      ensures state == TryUnlinkFs(old(state), p)
    {
      state := TryUnlinkFs(state, p);
    }

    method SmartLink(tools: Tools, f: string, t: string) returns (err: Option<LinkError>)
      modifies this
      ensures Applied(SmartLinkFs(old(state), tools, f, t), old(state), state, err)
    {
      if IsFile(state, f) {
        var e := Link(f, t);
        if e.Some? {
          err := Some(Os(e.value));
        } else {
          err := None;
        }
      } else if IsFile(state, f + ".gz") {
        Write(t, Decompress(tools, ".gz", Content(state, f + ".gz").value));
        err := None;
      } else if IsFile(state, f + ".bz2") {
        Write(t, Decompress(tools, ".bz2", Content(state, f + ".bz2").value));
        err := None;
      } else {
        err := Some(Missing(f));
      }
    }
  }
}
