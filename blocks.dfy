/**
 * The client's transfer plan: how a file is cut into blocks, which write
 * requests an upload sends, and what those writes leave on the server.
 */
module Blocks {
  import opened Consts
  import opened Os
  import opened Sessions
  import opened Messages

  /** The number of blocks UploadAt plans for a file of `size` bytes. */
  function BlockCount(size: nat): nat
  {
    size / BlockSize + (if size % BlockSize != 0 then 1 else 0)
  }

  /** The block count is the ceiling of size / BlockSize. */
  lemma BlockCountIsCeiling(size: nat)
    ensures BlockCount(size) * BlockSize >= size
    ensures BlockCount(size) == 0 || (BlockCount(size) - 1) * BlockSize < size
    ensures BlockCount(size) == 0 <==> size == 0
  {
    var q, r := size / BlockSize, size % BlockSize;
    assert size == q * BlockSize + r;
  }

  /** Offsets of later blocks lie at least one block further on. */
  lemma OffsetsIncrease(a: int, b: int)
    requires a < b
    ensures a * BlockSize + BlockSize <= b * BlockSize
  {
  }

  /** Block `i` is one of the planned blocks exactly when it starts before the end of the file. */
  lemma BlockIndex(size: nat, i: int)
    ensures 0 <= i < BlockCount(size) <==> 0 <= i && i * BlockSize < size
  {
    var q := size / BlockSize;
    if 0 <= i {
      if i < q {
        OffsetsIncrease(i, q);
      } else if i > q {
        OffsetsIncrease(q, i);
      }
    }
  }

  /** Block `i` of content `c`: what SetBlock reads, at offset i * BlockSize. */
  function Block(c: seq<byte>, i: nat): seq<byte>
  {
    Slice(c, i * BlockSize, BlockSize)
  }

  /** Whether reading block `i` of a file of `size` bytes comes up short, and so reports io.EOF. */
  predicate ShortRead(size: nat, i: nat)
  {
    i * BlockSize + BlockSize > size
  }

  /**
   * Of the planned blocks, only the last can be short, and it is short exactly
   * when the size is not a multiple of BlockSize; every planned block holds
   * the bytes of the file from its offset on, BlockSize of them unless short.
   */
  lemma PlannedBlock(c: seq<byte>, i: nat)
    requires i < BlockCount(|c|)
    ensures ShortRead(|c|, i) <==> i == BlockCount(|c|) - 1 && |c| % BlockSize != 0
    ensures i * BlockSize < |c|
    ensures |Block(c, i)| == (if ShortRead(|c|, i) then |c| - i * BlockSize else BlockSize)
    ensures Block(c, i) == c[i * BlockSize .. Min(i * BlockSize + BlockSize, |c|)]
  {
    BlockIndex(|c|, i);
    BlockIndex(|c|, i + 1);
    OffsetsIncrease(i, i + 1);
  }

  /** The write request UploadAt sends for block `i`: always claiming BlockSize bytes. */
  function BlockRequest(sid: SessionID, c: seq<byte>, i: nat): WriteRequest
  {
    WriteRequest(sid, i * BlockSize, BlockSize, Block(c, i), ShortRead(|c|, i))
  }

  /** The requests for blocks k .. i-1, in increasing order. */
  function Requests(sid: SessionID, c: seq<byte>, k: nat, i: int): (rs: seq<WriteRequest>)
  {
    if i <= k then [] else seq(i - k, j requires 0 <= j => BlockRequest(sid, c, k + j))
  }

  /** Sending one more block extends the requests by that block's request. */
  lemma RequestsStep(sid: SessionID, c: seq<byte>, k: nat, i: nat)
    requires k <= i
    ensures Requests(sid, c, k, i + 1) == Requests(sid, c, k, i) + [BlockRequest(sid, c, i)]
  {
    var longer, shorter := Requests(sid, c, k, i + 1), Requests(sid, c, k, i);
    assert |longer| == |shorter| + 1;
    forall j | 0 <= j < |longer|
      ensures longer[j] == (shorter + [BlockRequest(sid, c, i)])[j]
    {
    }
  }

  /**
   * The content of a server file that held `content` after it has accepted
   * the writes `reqs` in order; a write at a negative offset is rejected and
   * changes nothing.
   */
  function ApplyWrites(content: seq<byte>, reqs: seq<WriteRequest>): seq<byte>
    decreases |reqs|
  {
    if reqs == [] then content
    else
      var last := reqs[|reqs| - 1];
      var before := ApplyWrites(content, reqs[..|reqs| - 1]);
      if last.offset < 0 then before else WriteBytes(before, last.offset, last.data)
  }

  /** Sending block `i` after blocks k..i-1 adds its request to the plan and writes its bytes at its offset. */
  lemma UploadStep(sid: SessionID, base: seq<byte>, c: seq<byte>, k: nat, i: nat)
    requires k <= i
    ensures Requests(sid, c, k, i + 1) == Requests(sid, c, k, i) + [BlockRequest(sid, c, i)]
    ensures ApplyWrites(base, Requests(sid, c, k, i + 1))
         == WriteBytes(ApplyWrites(base, Requests(sid, c, k, i)), i * BlockSize, Block(c, i))
  {
    var sent := Requests(sid, c, k, i);
    RequestsStep(sid, c, k, i);
    assert (sent + [BlockRequest(sid, c, i)])[..|sent|] == sent;
  }

  /**
   * Byte `j` of a file that held `base` once the bytes of `c` in [lo, hi) have
   * been written into it: those bytes, else the old byte, else a zero of the hole.
   */
  function UploadedByte(base: seq<byte>, c: seq<byte>, lo: nat, hi: nat, j: nat): byte
  {
    if lo <= j < hi && j < |c| then c[j]
    else if j < |base| then base[j]
    else 0
  }

  /** One more block written right after the bytes already in place extends them to `hi`. */
  lemma WriteNextBlock(prev: seq<byte>, base: seq<byte>, c: seq<byte>, lo: nat, off: nat, hi: nat)
    requires lo <= off < hi <= |c|
    requires |prev| == (if lo == off then |base| else Max(|base|, off))
    requires forall j :: 0 <= j < |prev| ==> prev[j] == UploadedByte(base, c, lo, off, j)
    ensures var r := WriteBytes(prev, off, c[off..hi]);
      |r| == Max(|base|, hi) && forall j :: 0 <= j < |r| ==> r[j] == UploadedByte(base, c, lo, hi, j)
  {
    var r := WriteBytes(prev, off, c[off..hi]);
    forall j | 0 <= j < |r|
      ensures r[j] == UploadedByte(base, c, lo, hi, j)
    {
      if j < |prev| {
        assert prev[j] == UploadedByte(base, c, lo, off, j);
      }
    }
  }

  /** Block i-1 starts where blocks k..i-2 end and lies inside the file. */
  lemma TailStep(c: seq<byte>, k: nat, i: nat) returns (lo: nat, mid: nat, hi: nat)
    requires k < i <= BlockCount(|c|)
    ensures lo == k * BlockSize && mid == (i - 1) * BlockSize && hi == Min(i * BlockSize, |c|)
    ensures lo <= mid < hi <= |c| && (k < i - 1 ==> lo < mid)
    ensures Block(c, i - 1) == c[mid..hi]
  {
    PlannedBlock(c, i - 1);
    OffsetsIncrease(i - 1, i);
    if k < i - 1 {
      OffsetsIncrease(k, i - 1);
    }
    lo, mid, hi := k * BlockSize, (i - 1) * BlockSize, Min(i * BlockSize, |c|);
  }

  /**
   * Writing blocks k .. i-1 of `c` over a file that held `base` puts the file's
   * bytes from k * BlockSize up to block i in place, keeps every other byte of
   * `base`, fills a hole before block k with zeros, and never shrinks the file.
   */
  lemma {:induction false} UploadedBytes(sid: SessionID, base: seq<byte>, c: seq<byte>, k: nat, i: nat)
    requires k <= i <= BlockCount(|c|)
    ensures var r := ApplyWrites(base, Requests(sid, c, k, i));
      && |r| == (if i == k then |base| else Max(|base|, Min(i * BlockSize, |c|)))
      && forall j :: 0 <= j < |r| ==> r[j] == UploadedByte(base, c, k * BlockSize, Min(i * BlockSize, |c|), j)
    decreases i
  {
    if i == k {
      var lo, hi := k * BlockSize, Min(i * BlockSize, |c|);
      assert Requests(sid, c, k, i) == [];
      assert forall j :: 0 <= j < |base| ==> base[j] == UploadedByte(base, c, lo, hi, j);
    } else {
      UploadedBytes(sid, base, c, k, i - 1);
      UploadedBytesStep(sid, base, c, k, i);
    }
  }

  /** The step of UploadedBytes: from the bytes after blocks k..i-2 to those after block i-1. */
  lemma UploadedBytesStep(sid: SessionID, base: seq<byte>, c: seq<byte>, k: nat, i: nat)
    requires k < i <= BlockCount(|c|)
    requires var r := ApplyWrites(base, Requests(sid, c, k, i - 1));
      && |r| == (if i - 1 == k then |base| else Max(|base|, Min((i - 1) * BlockSize, |c|)))
      && forall j :: 0 <= j < |r| ==> r[j] == UploadedByte(base, c, k * BlockSize, Min((i - 1) * BlockSize, |c|), j)
    ensures var r := ApplyWrites(base, Requests(sid, c, k, i));
      && |r| == Max(|base|, Min(i * BlockSize, |c|))
      && forall j :: 0 <= j < |r| ==> r[j] == UploadedByte(base, c, k * BlockSize, Min(i * BlockSize, |c|), j)
  {
    var lo, off, hi := TailStep(c, k, i);
    UploadStep(sid, base, c, k, i - 1);
    WriteNextBlock(ApplyWrites(base, Requests(sid, c, k, i - 1)), base, c, lo, off, hi);
  }


  /**
   * Uploading every block from block 0 leaves the local file's bytes at the
   * front of the server file, whose length is the larger of the two; into an
   * empty file it reproduces the local file exactly.
   */
  lemma UploadReproducesFile(sid: SessionID, base: seq<byte>, c: seq<byte>)
    ensures var r := ApplyWrites(base, Requests(sid, c, 0, BlockCount(|c|)));
      |r| == Max(|base|, |c|) && r[..|c|] == c && (base == [] ==> r == c)
  {
    var n := BlockCount(|c|);
    BlockCountIsCeiling(|c|);
    UploadedBytes(sid, base, c, 0, n);
    var r, hi := ApplyWrites(base, Requests(sid, c, 0, n)), Min(n * BlockSize, |c|);
    assert hi == |c|;
    assert forall j :: 0 <= j < |c| ==> r[j] == UploadedByte(base, c, 0 * BlockSize, hi, j) == c[j];
  }

  /**
   * Resuming at block k writes the rest of the file in place and leaves the
   * server's bytes before k * BlockSize untouched.
   */
  lemma ResumeKeepsEarlierBytes(sid: SessionID, base: seq<byte>, c: seq<byte>, k: nat)
    requires k < BlockCount(|c|)
    ensures var r := ApplyWrites(base, Requests(sid, c, k, BlockCount(|c|)));
      && k * BlockSize < |c| && |r| == Max(|base|, |c|)
      && r[..Min(k * BlockSize, |base|)] == base[..Min(k * BlockSize, |base|)]
      && r[k * BlockSize..|c|] == c[k * BlockSize..]
  {
    var n := BlockCount(|c|);
    BlockCountIsCeiling(|c|);
    BlockIndex(|c|, k);
    UploadedBytes(sid, base, c, k, n);
    var r, lo := ApplyWrites(base, Requests(sid, c, k, n)), k * BlockSize;
    assert forall j :: 0 <= j < Min(lo, |base|) ==> r[j] == UploadedByte(base, c, lo, |c|, j) == base[j];
    assert forall j :: lo <= j < |c| ==> r[j] == UploadedByte(base, c, lo, |c|, j) == c[j];
  }

  /**
   * The shape of an upload resumed at block k: one request per remaining
   * block, in increasing order, each at its block's offset and claiming
   * BlockSize bytes; only the last can carry eof, and it does exactly when
   * the file size is not a multiple of BlockSize.
   */
  lemma UploadRequests(sid: SessionID, c: seq<byte>, k: nat)
    requires k <= BlockCount(|c|)
    ensures var rs := Requests(sid, c, k, BlockCount(|c|));
      && |rs| == BlockCount(|c|) - k
      && forall j :: 0 <= j < |rs| ==>
        && rs[j].id == sid && rs[j].offset == (k + j) * BlockSize && rs[j].size == BlockSize
        && rs[j].data == Block(c, k + j) && 0 < |rs[j].data|
        && (rs[j].eof <==> j == |rs| - 1 && |c| % BlockSize != 0)
  {
    var rs := Requests(sid, c, k, BlockCount(|c|));
    forall j | 0 <= j < |rs|
      ensures rs[j] == BlockRequest(sid, c, k + j)
      ensures 0 < |rs[j].data| && (rs[j].eof <==> j == |rs| - 1 && |c| % BlockSize != 0)
    {
      PlannedBlock(c, k + j);
    }
  }

  /** The bytes carried by `reqs`, end to end. */
  function Payload(reqs: seq<WriteRequest>): seq<byte>
    decreases |reqs|
  {
    if reqs == [] then [] else Payload(reqs[..|reqs| - 1]) + reqs[|reqs| - 1].data
  }

  /**
   * The blocks sent from block k on carry the file from k * BlockSize to its
   * end with no gap and no overlap; from block 0 they carry the whole file,
   * so their sizes add up to the file size.
   */
  lemma {:induction false} PayloadIsFileTail(sid: SessionID, c: seq<byte>, k: nat, i: nat)
    requires k <= i <= BlockCount(|c|)
    ensures Payload(Requests(sid, c, k, i)) == c[Min(k * BlockSize, |c|)..Min(i * BlockSize, |c|)]
    decreases i
  {
    if i == k {
      assert Requests(sid, c, k, i) == [];
    } else {
      PayloadIsFileTail(sid, c, k, i - 1);
      PayloadStep(sid, c, k, i);
    }
  }

  /** The step of PayloadIsFileTail: block i-1 carries the bytes right after those of blocks k..i-2. */
  lemma PayloadStep(sid: SessionID, c: seq<byte>, k: nat, i: nat)
    requires k < i <= BlockCount(|c|)
    requires Payload(Requests(sid, c, k, i - 1)) == c[Min(k * BlockSize, |c|)..Min((i - 1) * BlockSize, |c|)]
    ensures Payload(Requests(sid, c, k, i)) == c[Min(k * BlockSize, |c|)..Min(i * BlockSize, |c|)]
  {
    var rs, all := Requests(sid, c, k, i - 1), Requests(sid, c, k, i);
    assert Payload(all) == Payload(rs) + Block(c, i - 1) by {
      RequestsStep(sid, c, k, i - 1);
      assert all[..|all| - 1] == rs;
    }
    var lo, mid, hi := TailStep(c, k, i);
    assert c[lo..mid] + c[mid..hi] == c[lo..hi];
  }


  /**
   * A 2.5 MiB file goes in three requests at offsets 0, 1 MiB and 2 MiB,
   * carrying 1 MiB, 1 MiB and 0.5 MiB, with eof on the third only.
   */
  lemma TwoAndAHalfMiB(sid: SessionID, c: seq<byte>)
    requires |c| == 2621440
    ensures var rs := Requests(sid, c, 0, BlockCount(|c|));
      && |rs| == 3
      && rs[0].offset == 0 && rs[1].offset == 1048576 && rs[2].offset == 2097152
      && |rs[0].data| == 1048576 && |rs[1].data| == 1048576 && |rs[2].data| == 524288
      && !rs[0].eof && !rs[1].eof && rs[2].eof
  {
    UploadRequests(sid, c, 0);
    PlannedBlock(c, 2);
  }

  /** A file of exactly two blocks is sent as two full blocks, neither flagged eof. */
  lemma ExactMultipleSendsNoEof(sid: SessionID, c: seq<byte>)
    requires |c| == 2 * BlockSize
    ensures var rs := Requests(sid, c, 0, BlockCount(|c|));
      |rs| == 2 && |rs[0].data| == |rs[1].data| == BlockSize && !rs[0].eof && !rs[1].eof
  {
    UploadRequests(sid, c, 0);
    PlannedBlock(c, 1);
  }
}
