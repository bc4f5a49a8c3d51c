/** The request and response records of the remote operations. */
module Messages {
  import opened Consts
  import opened Os
  import opened Sessions

  datatype SesRequest = SesRequest(id: SessionID)

  datatype FileRequest = FileRequest(filename: string, path: string)

  datatype PathRequest = PathRequest(id: string)

  /** One block to write: `size` is what the client claims; the server writes `data`. */
  datatype WriteRequest = WriteRequest(id: SessionID, offset: int, size: int, data: seq<byte>, eof: bool)

  datatype WriteResponse = WriteResponse(id: SessionID, offset: int, size: int)

  /** File metadata; `kind` is the Type field, TypeDirectory or TypeFile. */
  datatype StatResponse = StatResponse(kind: string, size: int, name: string)
  {
    predicate IsDir()
    {
      kind == TypeDirectory
    }
  }

  datatype SesResponse = SesResponse(id: SessionID, result: bool)

  datatype PathResponse = PathResponse(id: string, result: bool)
}
