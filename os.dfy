/**
 * An in-memory stand-in for the parts of the operating system the upload
 * core uses: a tree of regular files and directories, and open file handles
 * with the positional read and write of Go's os.File.
 */
module Os {
  import opened Errors

  newtype byte = x: int | 0 <= x < 256

  function Min(a: int, b: int): int { if a <= b then a else b }
  function Max(a: int, b: int): int { if a >= b then a else b }

  /** `n` zero bytes: what a fresh buffer and a file hole hold. */
  function Zeros(n: nat): (z: seq<byte>)
    ensures |z| == n && forall j :: 0 <= j < n ==> z[j] == 0
  {
    seq(n, _ => 0 as byte)
  }

  /** filepath.Join of a directory and one path element; an empty element adds nothing. */
  function Join(dir: Path, elem: string): Path
  {
    if elem == "" then dir else dir + [elem]
  }

  function Parent(p: Path): Path
  {
    if p == [] then [] else p[..|p| - 1]
  }

  /** The last element of a path, as FileInfo.Name() reports it. */
  function BaseName(p: Path): string
  {
    if p == [] then "/" else p[|p| - 1]
  }

  /** The bytes a positional read of `size` bytes at `off` finds in `c`. */
  function Slice(c: seq<byte>, off: nat, size: nat): (r: seq<byte>)
    ensures |r| == Max(0, Min(size, |c| - off))
    ensures forall j :: 0 <= j < |r| ==> r[j] == c[off + j]
  {
    if off >= |c| then [] else c[off..Min(off + size, |c|)]
  }

  /**
   * The content of a file `c` after `data` is written at offset `off`, as
   * pwrite does it: the written range takes `data`, bytes outside it keep
   * their value, a hole between the old end and `off` reads as zeros, and the
   * file only grows. Writing nothing changes nothing.
   */
  function WriteBytes(c: seq<byte>, off: nat, data: seq<byte>): (r: seq<byte>)
    ensures data == [] ==> r == c
    ensures data != [] ==> |r| == Max(|c|, off + |data|)
    ensures forall j :: 0 <= j < |r| ==>
      r[j] == (if off <= j < off + |data| then data[j - off] else if j < |c| then c[j] else 0)
  {
    if data == [] then c
    else
      var padded := if off <= |c| then c else c + Zeros(off - |c|);
      var tail := if off + |data| < |padded| then padded[off + |data|..] else [];
      padded[..off] + data + tail
  }

  /**
   * The error os.File.WriteAt reports, in the order it finds them: the offset
   * is checked first, an empty buffer never reaches pwrite, and only pwrite
   * finds a closed handle (os.ErrClosed) or a read-only one (EBADF).
   */
  function WriteAtError(closed: bool, writable: bool, off: int, data: seq<byte>): (e: Option<Error>)
    ensures e.None? <==> off >= 0 && (data == [] || (!closed && writable))
    ensures off < 0 ==> e == Some(NegativeOffset)
    ensures off >= 0 && data != [] && closed ==> e == Some(FileClosed)
  {
    if off < 0 then Some(NegativeOffset)
    else if data == [] then None
    else if closed then Some(FileClosed)
    else if !writable then Some(BadDescriptor)
    else None
  }

  /** What os.Stat reports about a path. */
  datatype FileInfo = FileInfo(name: string, size: nat, isDir: bool)

  /** The outcome of a positional read into a zeroed buffer: bytes read, the buffer, the error. */
  datatype ReadResult = ReadResult(n: nat, buf: seq<byte>, err: Option<Error>)

  /**
   * A disk: regular files by path and a set of directories. Where a path is
   * in both, it is a directory.
   */
  class FileSystem {
    var files: map<Path, seq<byte>>
    var dirs: set<Path>

    constructor (files: map<Path, seq<byte>>, dirs: set<Path>)
      ensures this.files == files && this.dirs == dirs
    {
      this.files := files;
      this.dirs := dirs;
    }

    /** Whether a regular file stands on `p` or on one of its ancestors, where a directory is needed. */
    predicate FileOnPath(p: Path)
      reads this
      decreases |p|
    {
      p != [] && ((p !in dirs && p in files) || FileOnPath(Parent(p)))
    }

    /**
     * The error resolving a path that names nothing reports: ENOTDIR when the
     * walk down to it meets a regular file, ENOENT otherwise.
     */
    function LookupError(p: Path): (e: Error)
      reads this
      ensures e == NotExist(p) || e == NotADirectory(p)
      ensures e.NotADirectory? <==> exists q :: q in files && q !in dirs && 0 < |q| < |p| && q == p[..|q|]
    {
      AncestorFile(p);
      if FileOnPath(Parent(p)) then NotADirectory(p) else NotExist(p)
    }

    /** FileOnPath(Parent(p)) holds exactly when a non-root proper prefix of `p` is a regular file. */
    lemma {:induction false} AncestorFile(p: Path)
      ensures FileOnPath(Parent(p)) <==> exists q :: q in files && q !in dirs && 0 < |q| < |p| && q == p[..|q|]
      decreases |p|
    {
      if p != [] {
        var up := Parent(p);
        AncestorFile(up);
        if FileOnPath(up) {
          if up in files && up !in dirs {
            assert up == p[..|up|];
          } else {
            var q :| q in files && q !in dirs && 0 < |q| < |up| && q == up[..|q|];
            assert q == p[..|q|];
          }
        }
        if exists q :: q in files && q !in dirs && 0 < |q| < |p| && q == p[..|q|] {
          var q :| q in files && q !in dirs && 0 < |q| < |p| && q == p[..|q|];
          if |q| < |up| {
            assert q == up[..|q|];
          } else {
            assert q == up;
          }
        }
      }
    }

    /** os.Stat. A directory's size is not used by the core and is given as 0. */
    function Stat(p: Path): (r: Result<FileInfo>)
      reads this
      ensures r.Failure? <==> p !in dirs && p !in files
      ensures r.Failure? ==> r.error == LookupError(p)
      ensures r.Success? ==> r.value.name == BaseName(p) && (r.value.isDir <==> p in dirs)
      ensures r.Success? && !r.value.isDir ==> r.value.size == |files[p]|
    {
      if p in dirs then Success(FileInfo(BaseName(p), 0, true))
      else if p in files then Success(FileInfo(BaseName(p), |files[p]|, false))
      else Failure(LookupError(p))
    }

    /** Whether `p` names a regular file (and not a directory). */
    predicate IsRegularFile(p: Path)
      reads this
    {
      p !in dirs && p in files
    }

    /** os.Open: a read-only handle on an existing file or directory. */
    method Open(p: Path) returns (f: File?, err: Option<Error>)
      ensures err.None? <==> p in dirs || p in files
      ensures err.None? ==> f != null && fresh(f) && f.fs == this && f.path == p && !f.writable && !f.closed
      ensures err.Some? ==> f == null && err == Some(LookupError(p))
    {
      if p in dirs || p in files {
        f := new File(this, p, false);
        err := None;
      } else {
        f := null;
        err := Some(LookupError(p));
      }
    }

    /** The error os.OpenFile(p, O_CREATE|O_WRONLY, perm) reports, or None. */
    function OpenFileError(p: Path): Option<Error>
      reads this
    {
      if p in dirs then Some(IsADirectory(p))
      else if p in files || Parent(p) in dirs then None
      else Some(LookupError(p))
    }

    /**
     * os.OpenFile(p, O_CREATE|O_WRONLY, perm): a writable handle; a missing file
     * is created empty, an existing one keeps its bytes (there is no O_TRUNC).
     */
    method OpenFile(p: Path) returns (f: File?, err: Option<Error>)
      modifies this
      ensures err == old(OpenFileError(p))
      ensures err.None? ==> f != null && fresh(f) && f.fs == this && f.path == p && f.writable && !f.closed
      ensures err.None? ==> dirs == old(dirs) && files == old(files)[p := if p in old(files) then old(files)[p] else []]
      ensures err.Some? ==> f == null && unchanged(this)
    {
      err := OpenFileError(p);
      if err.Some? {
        f := null;
        return;
      }
      if p !in files {
        files := files[p := []];
      }
      f := new File(this, p, true);
    }

    /** The error os.MkdirAll(p) reports: the first path on the way up that is a regular file. */
    function MkdirAllError(p: Path): Option<Error>
      reads this
      decreases |p|
    {
      if p in dirs then None
      else if p in files then Some(NotADirectory(p))
      else if p == [] then None
      else MkdirAllError(Parent(p))
    }

    /** The directories os.MkdirAll(p) creates: `p` and its missing ancestors. */
    function MissingDirs(p: Path): set<Path>
      reads this
      decreases |p|
    {
      if p in dirs then {}
      else if p == [] then {p}
      else MissingDirs(Parent(p)) + {p}
    }

    /** os.MkdirAll: create `p` and every missing ancestor, or fail changing nothing. */
    method MkdirAll(p: Path) returns (err: Option<Error>)
      modifies this
      decreases |p|
      ensures err == old(MkdirAllError(p))
      ensures files == old(files)
      ensures err.None? ==> dirs == old(dirs) + old(MissingDirs(p)) && p in dirs
      ensures err.Some? ==> unchanged(this)
    {
      if p in dirs {
        return None;
      }
      if p in files {
        return Some(NotADirectory(p));
      }
      if p != [] {
        err := MkdirAll(Parent(p));
        if err.Some? {
          return;
        }
      }
      dirs := dirs + {p};
      err := None;
    }
  }

  /** An open handle (os.File): the file it refers to, its mode, and whether it has been closed. */
  class File {
    const fs: FileSystem
    const path: Path
    const writable: bool
    var closed: bool

    constructor (fs: FileSystem, path: Path, writable: bool)
      ensures this.fs == fs && this.path == path && this.writable == writable && !closed
    {
      this.fs := fs;
      this.path := path;
      this.writable := writable;
      closed := false;
    }

    /** The bytes of the file this handle refers to. */
    function Content(): seq<byte>
      reads fs
    {
      if path in fs.files then fs.files[path] else []
    }

    /**
     * os.File.ReadAt into a fresh zeroed buffer of `size` bytes. The offset is
     * checked first; an empty buffer never reaches pread; pread then finds a
     * closed handle, a directory, or the bytes, with io.EOF when they run out.
     */
    function ReadAt(size: nat, off: int): (r: ReadResult)
      reads this, fs
      ensures r.n <= |r.buf|
      ensures off < 0 ==> r.err == Some(NegativeOffset)
      ensures off >= 0 && size > 0 && closed ==> r.err == Some(FileClosed)
      ensures off >= 0 && size > 0 && !closed && path in fs.dirs ==> r.err == Some(IsADirectory(path))
      ensures r.err.None? <==> off >= 0 && (size == 0 || (!closed && path !in fs.dirs && off + size <= |Content()|))
      ensures r.err == Some(EOF) <==> off >= 0 && size > 0 && !closed && path !in fs.dirs && off + size > |Content()|
      ensures r.err.Some? && r.err != Some(EOF) ==> r.n == 0
      ensures r.err.None? || r.err == Some(EOF) ==> off >= 0 && r.buf[..r.n] == Slice(Content(), off, size)
    {
      if off < 0 then ReadResult(0, Zeros(size), Some(NegativeOffset))
      else if size == 0 then ReadResult(0, [], None)
      else if closed then ReadResult(0, Zeros(size), Some(FileClosed))
      else if path in fs.dirs then ReadResult(0, Zeros(size), Some(IsADirectory(path)))
      else
        var got := Slice(Content(), off, size);
        ReadResult(|got|, got + Zeros(size - |got|), if |got| < size then Some(EOF) else None)
    }

    /** os.File.WriteAt: a positional write through this handle. */
    method WriteAt(data: seq<byte>, off: int) returns (err: Option<Error>)
      modifies fs
      ensures err == WriteAtError(closed, writable, off, data)
      ensures err.Some? || data == [] ==> unchanged(fs)
      ensures err.None? && data != [] ==>
        fs.dirs == old(fs.dirs) && fs.files == old(fs.files)[path := WriteBytes(old(Content()), off, data)]
    {
      if off < 0 {
        return Some(NegativeOffset);
      }
      if data == [] {
        return None;
      }
      if closed {
        return Some(FileClosed);
      }
      if !writable {
        return Some(BadDescriptor);
      }
      fs.files := fs.files[path := WriteBytes(Content(), off, data)];
      err := None;
    }

    /** os.File.Close: a second close reports an error and changes nothing more. */
    method Close() returns (err: Option<Error>)
      modifies this
      ensures closed
      ensures err == if old(closed) then Some(FileClosed) else None
    {
      if closed {
        return Some(FileClosed);
      }
      closed := true;
      err := None;
    }
  }
}
