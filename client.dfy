/**
 * The uploading client: the local stat and block reads, the wrappers around
 * the remote calls, and the upload loop that cuts a local file into blocks
 * and writes them into a server-side session. A remote call is modelled as a
 * direct call into the server's handler; the ghost `calls` log records, in
 * order, every call the client issues.
 */
module Uploader {
  import opened Consts
  import opened Errors
  import opened Os
  import opened Sessions
  import opened Messages
  import opened Handlers
  import opened Blocks

  /** A remote call as the client issues it. */
  datatype Call =
    | CreatePathCall(pathReq: PathRequest)
    | CreateCall(fileReq: FileRequest)
    | WriteAtCall(writeReq: WriteRequest)
    | CloseCall(sesReq: SesRequest)

  /** The write requests, issued one after the other as WriteAt calls. */
  function WriteCalls(reqs: seq<WriteRequest>): (cs: seq<Call>)
    ensures |cs| == |reqs|
    ensures forall j :: 0 <= j < |reqs| ==> cs[j] == WriteAtCall(reqs[j])
  {
    seq(|reqs|, j requires 0 <= j < |reqs| => WriteAtCall(reqs[j]))
  }

  /** Sending one more planned block appends its WriteAt call to the log. */
  lemma WriteCallsStep(sid: SessionID, c: seq<byte>, k: nat, i: nat)
    requires k <= i
    ensures WriteCalls(Requests(sid, c, k, i + 1)) == WriteCalls(Requests(sid, c, k, i)) + [WriteAtCall(BlockRequest(sid, c, i))]
  {
    RequestsStep(sid, c, k, i);
  }

  /**
   * The local stat: a missing path is an error; a directory is reported with
   * the directory type and no size, a regular file with the file type and its
   * length; the name is the last path element.
   */
  function Stat(fs: FileSystem, filename: Path): (r: Result<StatResponse>)
    reads fs
    ensures r.Failure? <==> filename !in fs.dirs && filename !in fs.files
    ensures r.Failure? ==> r.error == fs.LookupError(filename)
    ensures r.Success? ==> r.value.name == BaseName(filename) && (r.value.IsDir() <==> filename in fs.dirs)
    ensures r.Success? && r.value.IsDir() ==> r.value.size == 0
    ensures r.Success? && !r.value.IsDir() ==> r.value.kind == TypeFile && r.value.size == |fs.files[filename]|
  {
    match fs.Stat(filename)
    case Failure(e) => Failure(e)
    case Success(fi) =>
      if fi.isDir then Success(StatResponse(TypeDirectory, 0, fi.name))
      else Success(StatResponse(TypeFile, fi.size, fi.name))
  }

  class Client {
    /** The server the client is connected to. */
    const rpc: Rpc
    /** The client's own disk, which the local files are read from. */
    const local: FileSystem
    /** Every remote call issued so far, in order. */
    ghost var calls: seq<Call>

    /** The server is consistent, and the client's disk is not the server's. */
    ghost predicate Valid()
      reads rpc, rpc.session, rpc.fs
    {
      rpc.Valid() && local != rpc.fs
    }

    /** A client connected to `rpc`, reading from `local`, that has issued no call yet. */
    constructor (rpc: Rpc, local: FileSystem)
      requires rpc.Valid() && local != rpc.fs
      ensures this.rpc == rpc && this.local == local && calls == []
      ensures Valid()
    {
      this.rpc := rpc;
      this.local := local;
      calls := [];
    }

    /** Ask the server to create `filename` under the upload directory `pathID`; the new session's id on success. */
    method Create(filename: string, pathID: string) returns (id: SessionID, err: Option<Error>)
      requires Valid()
      modifies this, rpc.session, rpc.fs
      ensures Valid()
      ensures calls == old(calls) + [CreateCall(FileRequest(filename, pathID))]
      ensures var path := rpc.CreateTarget(FileRequest(filename, pathID));
        && err == old(rpc.fs.OpenFileError(path))
        && (err.Some? ==> id == "" && unchanged(rpc.session, rpc.fs))
        && (err.None? ==>
              && id == rpc.session.counter && id != "" && id !in old(rpc.session.files) && id in rpc.session.files
              && rpc.session.files == old(rpc.session.files)[id := rpc.session.files[id]]
              && fresh(rpc.session.files[id])
              && rpc.session.files[id].path == path && rpc.session.files[id].writable && !rpc.session.files[id].closed
              && rpc.fs.dirs == old(rpc.fs.dirs)
              && rpc.fs.files == old(rpc.fs.files)[path := if path in old(rpc.fs.files) then old(rpc.fs.files)[path] else []])
    {
      var req := FileRequest(filename, pathID);
      calls := calls + [CreateCall(req)];
      var res, callErr := rpc.Create(req);
      if callErr.Some? {
        return "", callErr;
      }
      return res.id, None;
    }

    /** Ask the server for a fresh upload directory; its name, or "" when the server could not make it. */
    method CreatePath() returns (id: string, err: Option<Error>)
      requires Valid()
      modifies this, rpc.fs
      ensures Valid() && unchanged(rpc.session)
      ensures calls == old(calls) + [CreatePathCall(PathRequest(CREATE))]
      ensures err == None && rpc.fs.files == old(rpc.fs.files)
      ensures id != "" <==> old(rpc.fs.MkdirAllError(rpc.writeDir)).None?
      ensures id != "" ==>
        && Join(rpc.writeDir, id) !in old(rpc.fs.dirs) && Join(rpc.writeDir, id) !in old(rpc.fs.files)
        && rpc.fs.dirs == old(rpc.fs.dirs) + old(rpc.fs.MissingDirs(Join(rpc.writeDir, id)))
        && Join(rpc.writeDir, id) in rpc.fs.dirs
      ensures id == "" ==> unchanged(rpc.fs)
    {
      var req := PathRequest(CREATE);
      calls := calls + [CreatePathCall(req)];
      var res, callErr := rpc.CreatePath(req);
      if callErr.Some? {
        return "", callErr;
      }
      return res.id, None;
    }

    /**
     * Read up to `size` bytes of the local file at `offset`. The open is not
     * checked: a missing file makes the read fail with ErrInvalid. A short
     * read returns the bytes found together with io.EOF; any other error
     * returns no bytes.
     */
    method ReadLocalBlock(filename: Path, offset: int, size: nat) returns (data: seq<byte>, err: Option<Error>)
      ensures filename !in local.dirs && filename !in local.files ==> data == [] && err == Some(Invalid)
      ensures filename in local.dirs ==>
        && data == []
        && err == (if offset < 0 then Some(NegativeOffset) else if size == 0 then None else Some(IsADirectory(filename)))
      ensures local.IsRegularFile(filename) && offset < 0 ==> data == [] && err == Some(NegativeOffset)
      ensures local.IsRegularFile(filename) && offset >= 0 ==>
        var c := local.files[filename];
        && data == Slice(c, offset, size)
        && err == (if size > 0 && offset + size > |c| then Some(EOF) else None)
    {
      var file, openErr := local.Open(filename);
      var r := if file == null then ReadResult(0, Zeros(size), Some(Invalid)) else file.ReadAt(size, offset);
      if r.err.Some? && r.err != Some(EOF) {
        return [], r.err;
      }
      var n := size;
      if n > r.n {
        n := r.n;
      }
      data := r.buf[..n];
      err := r.err;
    }

    /** Read block `blockID` of the local file: BlockSize bytes at blockID * BlockSize. */
    method SetBlock(filename: Path, blockID: int) returns (data: seq<byte>, err: Option<Error>)
      ensures local.IsRegularFile(filename) && blockID >= 0 ==>
        var c := local.files[filename];
        data == Block(c, blockID) && err == (if ShortRead(|c|, blockID) then Some(EOF) else None)
      ensures local.IsRegularFile(filename) && blockID < 0 ==> data == [] && err == Some(NegativeOffset)
      ensures !local.IsRegularFile(filename) ==> data == [] && err.Some? && err != Some(EOF)
    {
      if blockID < 0 {
        OffsetsIncrease(blockID, 0);
      }
      data, err := ReadLocalBlock(filename, blockID * BlockSize, BlockSize);
    }

    /** Send one block to the server's session `sessionID`. */
    method WriteAt(sessionID: SessionID, offset: int, size: int, data: seq<byte>, eof: bool) returns (err: Option<Error>)
      requires Valid()
      modifies this, rpc.fs, rpc.session.HandleOf(sessionID)
      ensures Valid() && unchanged(rpc.session)
      ensures calls == old(calls) + [WriteAtCall(WriteRequest(sessionID, offset, size, data, eof))]
      ensures sessionID !in rpc.session.files ==> err == Some(MustOpenFirst) && unchanged(rpc.fs)
      ensures sessionID in rpc.session.files ==>
        var f := rpc.session.files[sessionID];
        && err == WriteAtError(old(f.closed), f.writable, offset, data)
        && (err.Some? ==> unchanged(rpc.fs) && f.closed == old(f.closed))
        && (err.None? ==> f.closed == (old(f.closed) || eof))
        && (err.None? && data == [] ==> unchanged(rpc.fs))
        && (err.None? && data != [] ==>
              rpc.fs.dirs == old(rpc.fs.dirs) &&
              rpc.fs.files == old(rpc.fs.files)[f.path := WriteBytes(old(f.Content()), offset, data)])
    {
      var req := WriteRequest(sessionID, offset, size, data, eof);
      calls := calls + [WriteAtCall(req)];
      var res, callErr := rpc.WriteAt(req);
      err := callErr;
    }

    /** Ask the server to close and forget session `sessionID`. */
    method CloseWriteSession(sessionID: SessionID) returns (err: Option<Error>)
      requires Valid()
      modifies this, rpc.session, rpc.session.HandleOf(sessionID)
      ensures Valid() && unchanged(rpc.fs)
      ensures calls == old(calls) + [CloseCall(SesRequest(sessionID))]
      ensures err == None
      ensures rpc.session.files == old(rpc.session.files) - {sessionID}
      ensures rpc.session.counter == old(rpc.session.counter)
      ensures sessionID in old(rpc.session.files) ==> old(rpc.session.files)[sessionID].closed
    {
      var req := SesRequest(sessionID);
      calls := calls + [CloseCall(req)];
      var res, callErr := rpc.Close(req);
      err := callErr;
    }

    /**
     * One round of the upload loop: read block `i` of the local file and send
     * it, flagged eof when the read came up short. A negative block number
     * fails on the read, before anything is sent.
     */
    method UploadBlock(filename: Path, sessionID: SessionID, i: int) returns (err: Option<Error>)
      requires Valid() && local.IsRegularFile(filename)
      requires i < BlockCount(|local.files[filename]|)
      requires sessionID in rpc.session.files
      requires rpc.session.files[sessionID].writable && !rpc.session.files[sessionID].closed
      modifies this, rpc.fs, rpc.session.files[sessionID]
      ensures Valid() && unchanged(rpc.session)
      ensures i < 0 ==> err == Some(NegativeOffset) && calls == old(calls) && unchanged(rpc.fs, rpc.session.files[sessionID])
      ensures 0 <= i ==>
        var c, f := local.files[filename], rpc.session.files[sessionID];
        && err == None
        && calls == old(calls) + [WriteAtCall(BlockRequest(sessionID, c, i))]
        && f.closed == ShortRead(|c|, i) && (f.closed ==> i + 1 == BlockCount(|c|))
        && rpc.fs.dirs == old(rpc.fs.dirs)
        && rpc.fs.files == old(rpc.fs.files)[f.path := WriteBytes(old(f.Content()), i * BlockSize, Block(c, i))]
    {
      var eof := false;
      var buf, readErr := SetBlock(filename, i);
      if readErr.Some? && readErr != Some(EOF) {
        return readErr;
      }
      if readErr == Some(EOF) {
        eof := true;
      }
      PlannedBlock(local.files[filename], i);
      err := WriteAt(sessionID, i * BlockSize, BlockSize, buf, eof);
    }

    /**
     * The upload loop: send blocks `blockID` up to `blocks` of the local file
     * through session `sessionID`, stopping at the first error. From a
     * negative block number the first read fails and nothing is sent;
     * otherwise the planned write requests go out in order and the server
     * file ends up as those writes leave its content.
     */
    method SendBlocks(filename: Path, sessionID: SessionID, blockID: int, blocks: int) returns (err: Option<Error>)
      requires Valid() && local.IsRegularFile(filename)
      requires blocks == BlockCount(|local.files[filename]|)
      requires sessionID in rpc.session.files
      requires rpc.session.files[sessionID].writable && !rpc.session.files[sessionID].closed
      modifies this, rpc.fs, rpc.session.files[sessionID]
      ensures Valid() && unchanged(rpc.session) && rpc.fs.dirs == old(rpc.fs.dirs)
      ensures blockID < 0 ==> err == Some(NegativeOffset) && calls == old(calls) && unchanged(rpc.fs)
      ensures blockID >= 0 ==>
        var c, f := local.files[filename], rpc.session.files[sessionID];
        var reqs := Requests(sessionID, c, blockID, blocks);
        && err == None
        && calls == old(calls) + WriteCalls(reqs)
        && rpc.fs.files == old(rpc.fs.files)[f.path := ApplyWrites(old(f.Content()), reqs)]
    {
      ghost var c := local.files[filename];
      ghost var h := rpc.session.files[sessionID];
      ghost var base := h.Content();
      ghost var calls0 := calls;
      var i := blockID;
      while i < blocks
        invariant Valid() && rpc.fs.dirs == old(rpc.fs.dirs)
        invariant blockID <= i && (i < blocks ==> !h.closed)
        invariant blockID < 0 ==> i == blockID && calls == calls0 && unchanged(rpc.fs)
        invariant 0 <= blockID ==>
          && (i <= blocks || i == blockID)
          && calls == calls0 + WriteCalls(Requests(sessionID, c, blockID, i))
          && rpc.fs.files == old(rpc.fs.files)[h.path := ApplyWrites(base, Requests(sessionID, c, blockID, i))]
      {
        err := UploadBlock(filename, sessionID, i);
        if err.Some? {
          return err;
        }
        UploadStep(sessionID, base, c, blockID, i);
        WriteCallsStep(sessionID, c, blockID, i);
        i := i + 1;
      }
      assert 0 <= blockID ==> Requests(sessionID, c, blockID, i) == Requests(sessionID, c, blockID, blocks);
      err := None;
    }

    /**
     * The part of UploadAt after the stat: create the server file `name` in
     * `pathID`, send the blocks from `blockID` on, and close the session once
     * every block went through.
     */
    method Transfer(filename: Path, name: string, pathID: string, blockID: int, blocks: int) returns (err: Option<Error>)
      requires Valid() && local.IsRegularFile(filename) && blocks == BlockCount(|local.files[filename]|)
      modifies this, rpc.session, rpc.fs
      ensures Valid()
      ensures var target := rpc.CreateTarget(FileRequest(name, pathID));
        old(rpc.fs.OpenFileError(target)).Some? ==>
          && err == old(rpc.fs.OpenFileError(target))
          && calls == old(calls) + [CreateCall(FileRequest(name, pathID))]
          && unchanged(rpc.session, rpc.fs)
      ensures
        var c := local.files[filename];
        var create := FileRequest(name, pathID);
        var target := rpc.CreateTarget(create);
        var base := if target in old(rpc.fs.files) then old(rpc.fs.files)[target] else [];
        var sid := rpc.session.counter;
        old(rpc.fs.OpenFileError(target)).None? ==>
          && sid != "" && sid !in old(rpc.session.files)
          && rpc.fs.dirs == old(rpc.fs.dirs)
          && (blockID < 0 ==>
                && err == Some(NegativeOffset)
                && calls == old(calls) + [CreateCall(create)]
                && sid in rpc.session.files
                && rpc.session.files == old(rpc.session.files)[sid := rpc.session.files[sid]]
                && rpc.fs.files == old(rpc.fs.files)[target := base])
          && (blockID >= 0 ==>
                var reqs := Requests(sid, c, blockID, blocks);
                && err == None
                && calls == old(calls) + [CreateCall(create)] + WriteCalls(reqs) + [CloseCall(SesRequest(sid))]
                && rpc.session.files == old(rpc.session.files)
                && rpc.fs.files == old(rpc.fs.files)[target := ApplyWrites(base, reqs)])
    {
      var sessionID, createErr := Create(name, pathID);
      if createErr.Some? {
        return createErr;
      }
      err := SendBlocks(filename, sessionID, blockID, blocks);
      if err.Some? {
        return err;
      }
      var closeErr := CloseWriteSession(sessionID);
      assert rpc.session.files == old(rpc.session.files);
      return None;
    }

    /**
     * Upload the local file from block `blockID` on into the server directory
     * `pathID`: stat it, refuse a directory, create the server file, send
     * every planned block from `blockID` on in order (the short last block
     * flagged eof), then close the session. On success the calls issued are
     * exactly Create, the planned writes and Close, the session store is as
     * before, and the server file holds what those writes leave on its old
     * content. A negative `blockID` fails on the first read, with the session
     * left open.
     */
    method UploadAt(filename: Path, pathID: string, blockID: int) returns (err: Option<Error>)
      requires Valid()
      modifies this, rpc.session, rpc.fs
      ensures Valid()
      ensures !local.IsRegularFile(filename) ==>
        && calls == old(calls) && unchanged(rpc.session, rpc.fs)
        && err == (if filename in local.dirs then Some(UploadOfDirectory(filename)) else Some(local.LookupError(filename)))
      ensures local.IsRegularFile(filename) ==>
        var create := FileRequest(BaseName(filename), pathID);
        var target := rpc.CreateTarget(create);
        old(rpc.fs.OpenFileError(target)).Some? ==>
          && err == old(rpc.fs.OpenFileError(target))
          && calls == old(calls) + [CreateCall(create)]
          && unchanged(rpc.session, rpc.fs)
      ensures local.IsRegularFile(filename) ==>
        var c := local.files[filename];
        var create := FileRequest(BaseName(filename), pathID);
        var target := rpc.CreateTarget(create);
        var base := if target in old(rpc.fs.files) then old(rpc.fs.files)[target] else [];
        var sid := rpc.session.counter;
        old(rpc.fs.OpenFileError(target)).None? ==>
          && sid != "" && sid !in old(rpc.session.files)
          && rpc.fs.dirs == old(rpc.fs.dirs)
          && (blockID < 0 ==>
                && err == Some(NegativeOffset)
                && calls == old(calls) + [CreateCall(create)]
                && sid in rpc.session.files
                && rpc.session.files == old(rpc.session.files)[sid := rpc.session.files[sid]]
                && rpc.fs.files == old(rpc.fs.files)[target := base])
          && (blockID >= 0 ==>
                var reqs := Requests(sid, c, blockID, BlockCount(|c|));
                && err == None
                && calls == old(calls) + [CreateCall(create)] + WriteCalls(reqs) + [CloseCall(SesRequest(sid))]
                && rpc.session.files == old(rpc.session.files)
                && rpc.fs.files == old(rpc.fs.files)[target := ApplyWrites(base, reqs)])
    {
      var stat := Stat(local, filename);
      if stat.Failure? {
        return Some(stat.error);
      }
      if stat.value.IsDir() {
        return Some(UploadOfDirectory(filename));
      }
      var blocks := stat.value.size / BlockSize;
      if stat.value.size % BlockSize != 0 {
        blocks := blocks + 1;
      }

      err := Transfer(filename, stat.value.name, pathID, blockID, blocks);
    }

    /**
     * Upload the whole local file. When it succeeds the server file starts
     * with the local file's bytes and is as long as the longer of the two; a
     * server file that was new or empty ends up equal to the local file.
     */
    method Upload(filename: Path, pathID: string) returns (err: Option<Error>)
      requires Valid()
      modifies this, rpc.session, rpc.fs
      ensures Valid()
      ensures !local.IsRegularFile(filename) ==>
        && calls == old(calls) && unchanged(rpc.session, rpc.fs)
        && err == (if filename in local.dirs then Some(UploadOfDirectory(filename)) else Some(local.LookupError(filename)))
      ensures local.IsRegularFile(filename) ==>
        var create := FileRequest(BaseName(filename), pathID);
        var target := rpc.CreateTarget(create);
        old(rpc.fs.OpenFileError(target)).Some? ==>
          && err == old(rpc.fs.OpenFileError(target))
          && calls == old(calls) + [CreateCall(create)]
          && unchanged(rpc.session, rpc.fs)
      ensures local.IsRegularFile(filename) ==>
        var c := local.files[filename];
        var create := FileRequest(BaseName(filename), pathID);
        var target := rpc.CreateTarget(create);
        var base := if target in old(rpc.fs.files) then old(rpc.fs.files)[target] else [];
        var sid := rpc.session.counter;
        old(rpc.fs.OpenFileError(target)).None? ==>
          && err == None
          && calls == old(calls) + [CreateCall(create)] + WriteCalls(Requests(sid, c, 0, BlockCount(|c|))) + [CloseCall(SesRequest(sid))]
          && rpc.session.files == old(rpc.session.files)
          && rpc.fs.dirs == old(rpc.fs.dirs)
          && target in rpc.fs.files
          && rpc.fs.files - {target} == old(rpc.fs.files) - {target}
          && |rpc.fs.files[target]| == Max(|base|, |c|)
          && rpc.fs.files[target][..|c|] == c
          && (base == [] ==> rpc.fs.files[target] == c)
    {
      err := UploadAt(filename, pathID, 0);
      if local.IsRegularFile(filename) {
        UploadReproducesFile(rpc.session.counter, if rpc.CreateTarget(FileRequest(BaseName(filename), pathID)) in old(rpc.fs.files)
          then old(rpc.fs.files)[rpc.CreateTarget(FileRequest(BaseName(filename), pathID))] else [], local.files[filename]);
      }
    }
  }
}
