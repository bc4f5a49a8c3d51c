# go-chunk chunked upload, modelled in Dafny

This project models the `uploader` package of go-chunk, a chunked file-upload
protocol. A client cuts a local file into 1 MiB blocks. It asks the server to
create the destination file, which registers a session. It then writes every
block through that session at offset `i * BlockSize`, flagging the short last
block with `eof`, and finally closes the session. The server keeps a session
store that maps session ids to open file handles. Its remote operations are
Open, Create, WriteAt, Close and CreatePath.

Modules, one per part of the program:

- `Consts` (consts.go): `BlockSize`, the `CREATE` token and the two stat types.
- `Errors`: `Option`, `Result`, and the errors the core reports.
- `Uuid`: a fresh-id choice standing in for `uuid.New()`.
- `Os`: an in-memory stand-in for the parts of Go's `os` package the core uses.
  - A `FileSystem` class holds a path-to-bytes map and a set of directories. It models `Stat`, `Open`, `OpenFile(O_CREATE|O_WRONLY)` (no truncation) and `MkdirAll`.
  - A `File` class is a handle. It models the positional `ReadAt` and `WriteAt` and `Close`. Errors come in the order Go 1.9 and later finds them: the offset first, then an empty buffer (which succeeds), then a closed handle, a directory or a read-only handle.
- `Sessions` (session.go): the `Session` class with its `files` map and `counter` field.
- `Messages` (rpc.go): the request and response records, and `StatResponse.IsDir` (rpc.go:144-146).
- `Handlers` (rpc.go): the `Rpc` class holding the write directory, the session store and the server disk.
- `Blocks` (client.go, pure part): the block count `BlockCount` (client.go:152-155), the block contents, and the write requests an upload sends (`BlockRequest`, client.go:172).
  - `ApplyWrites` gives what those requests leave on the server.
  - The lemmas relate these to the local file.
- `Uploader` (client.go): the `Client` class.
  - The remote calls go straight into the `Rpc` model.
  - A ghost `calls` log records every remote call the client makes, in order.

The property at the end of the chain is `Uploader.Client.Upload`. Uploading a
local file into a new or empty server file leaves the server file equal to the
local file. Into an existing file, the local bytes land at the front and the
file never shrinks.

Three behaviours of the code are easy to misread; the model follows the code:

- A file whose size is an exact multiple of `BlockSize` sends no block flagged `eof`. The flag is only set when a read comes up short. See `Blocks.ExactMultipleSendsNoEof`.
- An empty upload directory in `Create` sets `Result = false` but does not stop the call. If the open succeeds, `Result` ends up `true`.
- A write flagged `eof` closes the server handle but leaves the session registered. Only `Close` removes the session.

## Model

| member | source | states |
|---|---|---|
| Uuid.FreshIdExists | session.go:23 | there is always a non-empty id that is not in use, so the fresh-id choice in `Add` and `CreatePath` can always be made |
| Os.Slice | client.go:103-112 | a positional read of `size` bytes at `off` yields `min(size, len - off)` bytes (none past the end), each equal to the file byte at `off + j` |
| Os.WriteBytes | rpc.go:99 | after a write of `data` at `off`: bytes in `[off, off+|data|)` are `data`, other old bytes are kept, a hole reads as zeros, the length is `max(old, off+|data|)`, and empty data changes nothing |
| Os.Zeros | client.go:99 | the fresh read buffer holds `size` zero bytes |
| Os.FileSystem.Stat | client.go:192 | fails exactly for a missing path, with ENOENT or ENOTDIR as `LookupError` says; otherwise it gives the base name, whether the path is a directory, and a regular file's length |
| Os.FileSystem.LookupError | rpc.go:73 | a path that names nothing gives ENOTDIR exactly when a regular file stands on one of its ancestors, and ENOENT otherwise |
| Os.FileSystem.AncestorFile | rpc.go:73 | the upward walk `FileOnPath` finds a regular file exactly when some non-root proper prefix of the path is one |
| Os.FileSystem.Open | rpc.go:73 | succeeds exactly for an existing path, giving a fresh read-only open handle on it; otherwise the lookup error (ENOENT or ENOTDIR) and a nil handle |
| Os.FileSystem.OpenFile | rpc.go:115-117 | creates a missing file empty and keeps an existing file's bytes (no truncation); on error (EISDIR for a directory; ENOENT or ENOTDIR when the parent is not a directory) it changes nothing and returns no handle |
| Os.FileSystem.MkdirAll | rpc.go:132 | creates the path and exactly its missing ancestors, or fails with NotADirectory at the first regular file on the way up, changing nothing |
| Os.File.ReadAt | client.go:103 | a negative offset is reported first; a read of nothing succeeds even on a closed handle; otherwise a closed handle gives ErrClosed and a directory EISDIR, with nothing read; a read that succeeds or hits EOF returns exactly the file bytes at the offset, and EOF holds exactly when the read is short |
| Os.WriteAtError | rpc.go:99 | a write succeeds exactly when the offset is not negative and either there is nothing to write or the handle is open and writable; a negative offset is reported before a closed handle |
| Os.File.WriteAt | rpc.go:99-102 | returns `WriteAtError`; a successful non-empty write replaces the file's content by `WriteBytes`, and a failed or empty write changes nothing |
| Os.File.Close | rpc.go:103-105 | the handle is closed afterwards; closing twice reports an error |
| Sessions.Session.constructor | server.go:37 | the server starts with an empty session map |
| Sessions.Session.Add | session.go:20-28 | the id is non-empty and was not live before; exactly that entry is added; the size grows by one; `counter` is the id returned |
| Sessions.Session.Get | session.go:31-35 | returns the registered handle, or nil for an unknown id, and changes nothing |
| Sessions.Session.Delete | session.go:38-46 | a present id is closed and exactly that key is removed (size minus one); an absent id changes nothing; `counter` is kept |
| Sessions.Session.Len | session.go:49-51 | the number of live sessions |
| Sessions.DeleteIsIdempotent | session.go:42-45 | deleting twice leaves the store as deleting once |
| Handlers.Rpc.constructor | server.go:37-41 | the service starts with a fresh, empty session store over the server disk |
| Handlers.Rpc.Open | rpc.go:71-82 | opens `writeDir/filename` read-only and registers one fresh session reported in the response with `Result = true`; a missing file returns the lookup error (ENOENT or ENOTDIR) and registers nothing |
| Handlers.Rpc.Close | rpc.go:85-90 | always `Result = true` and no error, known id or not; removes the id and closes its handle |
| Handlers.Rpc.WriteAt | rpc.go:93-107 | an unknown id fails with "must open first" and changes nothing; otherwise the handle's write error is returned with nothing changed; a successful write lands at `Offset` (`Size` is ignored), and `EOF` then closes the handle but keeps its entry |
| Handlers.Rpc.Create | rpc.go:110-125 | the error is exactly OpenFile's for `writeDir/path/filename`; on success one fresh writable session is registered, `Result = true`, and an existing file keeps its bytes; on error nothing is registered |
| Handlers.Rpc.CreatePath | rpc.go:128-141 | never an error; a token other than CREATE gives an empty response and no change; with CREATE, `Result` holds exactly when MkdirAll succeeds, the id names a directory that did not exist before, and a failure leaves `ID` empty |
| Blocks.BlockCountIsCeiling | client.go:152-155 | the block count is the ceiling of size / BlockSize, and zero exactly for an empty file |
| Blocks.BlockIndex | client.go:163 | block `i` is planned exactly when it starts before the end of the file |
| Blocks.PlannedBlock | client.go:91-93 | a planned block is read at `i * BlockSize`; it holds the file bytes there, BlockSize of them unless short; only the last block can be short, exactly when the size is not a multiple of BlockSize |
| Blocks.RequestsStep | client.go:163-172 | sending one more block appends exactly its request to the requests sent so far |
| Blocks.UploadStep | client.go:172 | sending block `i` writes its bytes at its offset over what the earlier blocks left |
| Blocks.UploadedBytes | client.go:163-180 | after blocks `k..i-1`, every server byte is the local byte in the uploaded range, else the old byte, else zero; the length only grows |
| Blocks.UploadReproducesFile | example/main.go:65-67 | uploading every block puts the local file at the front of the server file, with length `max(old, local)`; into an empty file the two are equal, so their sizes match |
| Blocks.ResumeKeepsEarlierBytes | client.go:143-180 | resuming at block `k` leaves the server bytes before `k * BlockSize` untouched and puts the local bytes from there to the end in place |
| Blocks.UploadRequests | client.go:163-172 | the upload from block `k` sends exactly the blocks `k..blocks-1` in increasing order, at offsets `i * BlockSize`, always with `Size = BlockSize` and non-empty data; `eof` is set only on the last block, and only when it is short |
| Blocks.PayloadIsFileTail | client.go:163-180 | the blocks sent from `k` carry the file from `k * BlockSize` to its end with no gap or overlap; from block 0 they carry the whole file |
| Blocks.TwoAndAHalfMiB | client.go:152-172 | a 2.5 MiB file goes in three requests at 0, 1 MiB and 2 MiB, carrying 1, 1 and 0.5 MiB, with eof on the third only |
| Blocks.ExactMultipleSendsNoEof | client.go:164-171 | a file of exactly two blocks goes as two full blocks, neither flagged eof |
| Uploader.WriteCalls | client.go:172 | each write request becomes one WriteAt call, in the same order |
| Uploader.WriteCallsStep | client.go:163-175 | one more block adds exactly its WriteAt call to the log |
| Uploader.Stat | client.go:189-208 | a missing path is the lookup error (ENOENT or ENOTDIR); a directory gets `TypeDirectory` with size 0 (so `IsDir`, rpc.go:144-146, holds exactly for directories); a regular file gets `TypeFile` with its length; the name is the base name |
| Uploader.Client.constructor | client.go:21-24 | a client connected to a server, with no call made yet |
| Uploader.Client.Create | client.go:53-63 | makes one Create call; returns the new session id on success, and "" with the server's error on failure |
| Uploader.Client.CreatePath | client.go:66-76 | makes one CreatePath call with the CREATE token; returns the new directory's name, or "" when the server could not make it |
| Uploader.Client.ReadLocalBlock | client.go:97-113 | a missing file gives ErrInvalid (the open is not checked); a negative offset or a directory gives its error and no bytes; a regular file gives exactly the file bytes at the offset, up to `size`, with io.EOF exactly when the read is short |
| Uploader.Client.SetBlock | client.go:91-94 | block `i` of a regular file is the planned block, with io.EOF exactly when it is short; a negative block number fails with no bytes; a missing file or a directory is an error other than EOF |
| Uploader.Client.WriteAt | client.go:116-124 | makes one WriteAt call carrying exactly its arguments and returns the server's error |
| Uploader.Client.CloseWriteSession | client.go:127-135 | makes one Close call; never an error; the session is gone and its handle closed |
| Uploader.Client.UploadBlock | client.go:164-175 | one loop round: a negative block fails on the read before any call; otherwise exactly one WriteAt of the planned request, the block's bytes land at its offset, and the handle is closed exactly after a short block |
| Uploader.Client.SendBlocks | client.go:163-180 | the loop sends exactly the planned requests from `blockID` on, in order; the server file ends as `ApplyWrites` of them over its old content; a negative start fails with nothing sent |
| Uploader.Client.Transfer | client.go:158-185 | a failed Create returns its error before any block is sent; otherwise Create, the planned writes and one Close go out in that order, the session store is as before, and nil is returned |
| Uploader.Client.UploadAt | client.go:143-186 | a failed stat or a directory returns an error before any remote call; otherwise as Transfer, for the base name of the file and `ceil(size / BlockSize)` blocks |
| Uploader.Client.Upload | client.go:138-140 | UploadAt from block 0; on success the server file starts with the local file, has length `max(old, local)`, equals the local file when it was new or empty, and no other server file changes |

## Left out

- Network transport is not modelled: rpcx, TLS, `Dial`/`Close`, the service registration and the rate-limiting plugin (client.go:27-50, server.go:27-45). A remote call is a direct call into the `Rpc` model, so the transport errors rpcx can return never arise.
- The `Session` mutex is not modelled. Each store operation is atomic, and concurrent uploads are not covered.
- `uuid.New()` randomness is not modelled. An id is any non-empty string not in use: for sessions, not in the store; for upload directories, not naming an existing entry under the write directory.
- Os.FileSystem.LookupError: the model's disk is not required to be a tree. ENOTDIR is reported whenever some ancestor is a regular file, which is what the walk reports on a real tree; on a disk whose entries lack parent directories no real walk exists.
- The real operating system is replaced by `Os`. Not modelled: permissions (`FilePerm`, `os.ModePerm`), disk-full and I/O errors, `LastModified`, dot segments, and separators inside names (a name is one path element). An empty name adds nothing, as in `filepath.Join`.
- Uploader.Client.UploadBlock: the server's disk never fails in the model. The loop's return on a WriteAt error (client.go:173-175) is modelled but cannot be taken.
- Uploader.Client.ReadLocalBlock: the handle opened on each read is never closed in the source. The model does not track open descriptors, so that leak is not represented.
- Blocks.BlockRequest: offsets are unbounded integers. The `int64` product `i * BlockSize` cannot overflow in the model.
- Logging (`fmt.Printf`, and the progress condition at client.go:176-179) is not modelled. It only gates output.
- `Client.Stat` (client.go:79-88) is not modelled, because it calls a `Stat` operation the server does not provide.
- The driver program in example/main.go (goroutines, sleeps, paths) is not modelled. Only its size check is stated, in `Blocks.UploadReproducesFile`.
- The client and the server use distinct disks (`Client.Valid`). A single machine serving its own uploads is not covered.
