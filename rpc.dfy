/**
 * The transfer handler: the remote operations the server exposes, acting on
 * the session store and on the server's disk.
 */
module Handlers {
  import opened Consts
  import opened Errors
  import opened Os
  import opened Sessions
  import opened Messages
  import Uuid

  class Rpc {
    /** The directory every uploaded file lands under. */
    const writeDir: Path
    const session: Session
    const fs: FileSystem

    /** Every registered handle is a handle on this server's disk, and a writable one names a file on it. */
    ghost predicate Valid()
      reads this, session, fs
    {
      forall id :: id in session.files ==>
        session.files[id].fs == fs && (session.files[id].writable ==> session.files[id].path in fs.files)
    }

    /** The service as the server registers it: writing under `writeDir`, with an empty session store. */
    constructor (writeDir: Path, fs: FileSystem)
      ensures this.writeDir == writeDir && this.fs == fs
      ensures fresh(session) && session.files == map[] && session.counter == ""
      ensures Valid()
    {
      this.writeDir := writeDir;
      this.fs := fs;
      session := new Session();
    }

    /** Where Create puts the file `req` names. */
    function CreateTarget(req: FileRequest): Path
    {
      Join(Join(writeDir, req.path), req.filename)
    }

    /** Open an existing file under writeDir for reading and register a session for it. */
    method Open(req: FileRequest) returns (res: SesResponse, err: Option<Error>)
      requires Valid()
      modifies session
      ensures Valid() && unchanged(fs)
      ensures var path := Join(writeDir, req.filename);
        if path in fs.dirs || path in fs.files then
          && err == None && res.result && res.id == session.counter
          && res.id != "" && res.id !in old(session.files) && res.id in session.files
          && session.files == old(session.files)[res.id := session.files[res.id]]
          && fresh(session.files[res.id])
          && session.files[res.id].path == path && !session.files[res.id].writable && !session.files[res.id].closed
        else
          err == Some(fs.LookupError(path)) && res == SesResponse("", false) && unchanged(session)
    {
      res := SesResponse("", false);
      var path := Join(writeDir, req.filename);
      var file, openErr := fs.Open(path);
      if openErr.Some? {
        return res, openErr;
      }
      var id := session.Add(file);
      res := res.(id := id);
      res := res.(result := true);
      err := None;
    }

    /** Close and forget a session; succeeds whether or not the id is known. */
    method Close(req: SesRequest) returns (res: SesResponse, err: Option<Error>)
      requires Valid()
      modifies session, session.HandleOf(req.id)
      ensures Valid() && unchanged(fs)
      ensures err == None && res == SesResponse("", true)
      ensures session.files == old(session.files) - {req.id} && session.counter == old(session.counter)
      ensures req.id in old(session.files) ==> old(session.files)[req.id].closed
    {
      session.Delete(req.id);
      res := SesResponse("", true);
      err := None;
    }

    /**
     * Write one block through the session's handle. An unknown id fails
     * before any I/O; an eof-flagged write that succeeds closes the handle
     * but leaves it registered.
     */
    method WriteAt(req: WriteRequest) returns (res: WriteResponse, err: Option<Error>)
      requires Valid()
      modifies fs, session.HandleOf(req.id)
      ensures Valid() && unchanged(session)
      ensures res == WriteResponse("", 0, 0)
      ensures req.id !in session.files ==> err == Some(MustOpenFirst) && unchanged(fs)
      ensures req.id in session.files ==>
        var f := session.files[req.id];
        && err == WriteAtError(old(f.closed), f.writable, req.offset, req.data)
        && (err.Some? ==> unchanged(fs) && f.closed == old(f.closed))
        && (err.None? ==> f.closed == (old(f.closed) || req.eof))
        && (err.None? && req.data == [] ==> unchanged(fs))
        && (err.None? && req.data != [] ==>
              fs.dirs == old(fs.dirs) &&
              fs.files == old(fs.files)[f.path := WriteBytes(old(f.Content()), req.offset, req.data)])
    {
      res := WriteResponse("", 0, 0);
      var f := session.Get(req.id);
      if f == null {
        return res, Some(MustOpenFirst);
      }
      err := f.WriteAt(req.data, req.offset);
      if err.Some? {
        return;
      }
      if req.eof {
        var closeErr := f.Close();
      }
      err := None;
    }

    /**
     * Open (creating if need be, never truncating) the file `req` names for
     * writing and register a session for it. An empty path is flagged in the
     * response but does not stop the call.
     */
    method Create(req: FileRequest) returns (res: SesResponse, err: Option<Error>)
      requires Valid()
      modifies session, fs
      ensures Valid()
      ensures var path := CreateTarget(req);
        && err == old(fs.OpenFileError(path))
        && (err.Some? ==> res == SesResponse("", false) && unchanged(session) && unchanged(fs))
        && (err.None? ==>
              && res.result && res.id == session.counter
              && res.id != "" && res.id !in old(session.files) && res.id in session.files
              && session.files == old(session.files)[res.id := session.files[res.id]]
              && fresh(session.files[res.id])
              && session.files[res.id].path == path && session.files[res.id].writable && !session.files[res.id].closed
              && fs.dirs == old(fs.dirs)
              && fs.files == old(fs.files)[path := if path in old(fs.files) then old(fs.files)[path] else []])
    {
      res := SesResponse("", false);
      if req.path == "" {
        res := res.(result := false);
      }
      var file, openErr := fs.OpenFile(CreateTarget(req));
      if openErr.Some? {
        return res, openErr;
      }
      var id := session.Add(file);
      res := res.(id := id);
      res := res.(result := true);
      err := None;
    }

    /**
     * Make a fresh upload directory under writeDir when asked with the CREATE
     * token; any other token gets an empty response. A failed mkdir is
     * reported in the response, never as an error.
     */
    method CreatePath(req: PathRequest) returns (res: PathResponse, err: Option<Error>)
      requires Valid()
      modifies fs
      ensures Valid() && unchanged(session)
      ensures err == None
      ensures req.id != CREATE ==> res == PathResponse("", false) && unchanged(fs)
      ensures req.id == CREATE ==>
        && fs.files == old(fs.files)
        && (res.result <==> old(fs.MkdirAllError(writeDir)).None?)
        && (res.result ==>
              && res.id != ""
              && Join(writeDir, res.id) !in old(fs.dirs) && Join(writeDir, res.id) !in old(fs.files)
              && fs.dirs == old(fs.dirs) + old(fs.MissingDirs(Join(writeDir, res.id)))
              && Join(writeDir, res.id) in fs.dirs)
        && (!res.result ==> res.id == "" && unchanged(fs))
    {
      res := PathResponse("", false);
      if req.id == CREATE {
        var used := set p | p in fs.dirs + fs.files.Keys && |p| == |writeDir| + 1 :: p[|writeDir|];
        Uuid.FreshIdExists(used);
        var id :| id != "" && id !in used;
        var dir := Join(writeDir, id);
        assert dir[|writeDir|] == id;
        assert fs.MkdirAllError(dir) == fs.MkdirAllError(writeDir);
        var mkdirErr := fs.MkdirAll(dir);
        if mkdirErr.Some? {
          res := res.(result := false);
        } else {
          res := res.(result := true);
          res := res.(id := id);
        }
      }
      err := None;
    }
  }
}
