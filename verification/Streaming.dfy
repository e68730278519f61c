/** Streaming a query result: non-empty lines are cut into numbered chunks up to a row limit. */
module Streaming {
  import opened Common

  datatype Chunk = Chunk(seqNo: nat, rows: seq<string>)

  datatype StreamError = Cancelled | ReadFailed | ChunkRefused

  function NonEmpty(lines: seq<string>): seq<string> {
    if lines == [] then []
    else
      var rest := NonEmpty(lines[..|lines| - 1]);
      if lines[|lines| - 1] == "" then rest else rest + [lines[|lines| - 1]]
  }

  /** The first `maxRows` rows; no limit unless it is positive. */
  function Limited(rows: seq<string>, maxRows: int): seq<string> {
    if 0 < maxRows < |rows| then rows[..maxRows] else rows
  }

  function Rows(chunks: seq<Chunk>): seq<string> {
    if chunks == [] then [] else Rows(chunks[..|chunks| - 1]) + chunks[|chunks| - 1].rows
  }

  /** Numbered from zero, all full. */
  ghost predicate AllFull(chunks: seq<Chunk>, size: int) {
    forall k | 0 <= k < |chunks| :: chunks[k].seqNo == k && |chunks[k].rows| == size
  }

  /** Numbered from zero: all full but the last, which is not empty. */
  ghost predicate FullButLast(chunks: seq<Chunk>, size: int) {
    && (forall k | 0 <= k < |chunks| :: chunks[k].seqNo == k && 1 <= |chunks[k].rows| <= size)
    && (forall k | 0 <= k < |chunks| - 1 :: |chunks[k].rows| == size)
  }

  /** `rows` cut into chunks. */
  ghost predicate IsChunking(rows: seq<string>, size: int, chunks: seq<Chunk>) {
    Rows(chunks) == rows && FullButLast(chunks, size)
  }

  lemma {:induction false} FullPrefix(chunks: seq<Chunk>, size: int, k: nat)
    requires k <= |chunks| && forall j | 0 <= j < k :: |chunks[j].rows| == size
    ensures |Rows(chunks[..k])| == k * size
  {
    if k > 0 {
      FullPrefix(chunks, size, k - 1);
      assert chunks[..k][..k - 1] == chunks[..k - 1];
    }
  }

  lemma {:induction false} PrefixRows(chunks: seq<Chunk>, k: nat)
    requires k <= |chunks|
    ensures Rows(chunks[..k]) <= Rows(chunks)
    decreases |chunks|
  {
    if k < |chunks| {
      var init := chunks[..|chunks| - 1];
      PrefixRows(init, k);
      assert init[..k] == chunks[..k];
    } else {
      assert chunks[..k] == chunks;
    }
  }

  /** Where chunk `k` starts and ends. */
  function EndOf(rows: seq<string>, size: int, count: nat, k: nat): int {
    if k + 1 == count then |rows| else (k + 1) * size
  }

  lemma ChunkSlice(rows: seq<string>, size: int, chunks: seq<Chunk>, k: nat)
    requires IsChunking(rows, size, chunks) && k < |chunks|
    ensures 0 <= k * size && k * size + |chunks[k].rows| <= |rows|
    ensures chunks[k].rows == rows[k * size..k * size + |chunks[k].rows|]
  {
    var before, after := Rows(chunks[..k]), Rows(chunks[..k + 1]);
    FullPrefix(chunks, size, k);
    PrefixRows(chunks, k + 1);
    assert chunks[..k + 1][..k] == chunks[..k];
    assert after == before + chunks[k].rows;
    assert after == rows[..|after|];
  }

  lemma LastChunkEnds(rows: seq<string>, size: int, chunks: seq<Chunk>)
    requires IsChunking(rows, size, chunks) && chunks != []
    ensures |rows| == (|chunks| - 1) * size + |chunks[|chunks| - 1].rows|
  {
    var last := |chunks| - 1;
    FullPrefix(chunks, size, last);
    assert Rows(chunks) == Rows(chunks[..last]) + chunks[last].rows;
  }

  /** The chunks are the rows from position 0, `size`, twice `size` and so on. */
  lemma ChunkAt(rows: seq<string>, size: int, chunks: seq<Chunk>, k: nat)
    requires size > 0 && IsChunking(rows, size, chunks) && k < |chunks|
    ensures 0 <= k * size < EndOf(rows, size, |chunks|, k) <= |rows| <= |chunks| * size
    ensures chunks[k] == Chunk(k, rows[k * size..EndOf(rows, size, |chunks|, k)])
  {
    ChunkSlice(rows, size, chunks, k);
    LastChunkEnds(rows, size, chunks);
    assert (|chunks| - 1) * size + size == |chunks| * size;
    assert k * size + size == (k + 1) * size;
  }

  /** There is only one way to cut rows into chunks. */
  lemma ChunkingIsUnique(rows: seq<string>, size: int, a: seq<Chunk>, b: seq<Chunk>)
    requires size > 0 && IsChunking(rows, size, a) && IsChunking(rows, size, b)
    ensures a == b
  {
    NotLonger(rows, size, a, b);
    NotLonger(rows, size, b, a);
    forall k | 0 <= k < |a|
      ensures a[k] == b[k]
    {
      ChunkAt(rows, size, a, k);
      ChunkAt(rows, size, b, k);
    }
  }

  lemma NotLonger(rows: seq<string>, size: int, a: seq<Chunk>, b: seq<Chunk>)
    requires size > 0 && IsChunking(rows, size, a) && IsChunking(rows, size, b)
    ensures |b| <= |a|
  {
    if b != [] {
      ChunkAt(rows, size, b, |b| - 1);
      if a != [] {
        ChunkAt(rows, size, a, 0);
        if |a| <= |b| - 1 { ProductOrder(|a|, |b| - 1, size); }
      }
    }
  }

  lemma {:induction false} NonEmptyPrefix(lines: seq<string>, k: nat)
    requires k <= |lines|
    ensures NonEmpty(lines[..k]) <= NonEmpty(lines)
    decreases |lines|
  {
    if k < |lines| {
      NonEmptyPrefix(lines[..|lines| - 1], k);
      assert lines[..|lines| - 1][..k] == lines[..k];
    } else {
      assert lines[..k] == lines;
    }
  }

  lemma AppendChunk(chunks: seq<Chunk>, c: Chunk)
    ensures Rows(chunks + [c]) == Rows(chunks) + c.rows
  {
    assert (chunks + [c])[..|chunks|] == chunks;
  }

  lemma LastIsShorter(chunks: seq<Chunk>, size: int, c: Chunk)
    requires AllFull(chunks, size) && c.seqNo == |chunks| && 1 <= |c.rows| <= size
    ensures FullButLast(chunks + [c], size)
  {
    var all := chunks + [c];
    assert forall k | 0 <= k < |chunks| :: all[k] == chunks[k];
  }

  lemma LastChunk(chunks: seq<Chunk>, size: int, batch: seq<string>)
    requires AllFull(chunks, size) && 1 <= |batch| <= size
    ensures IsChunking(Rows(chunks) + batch, size, chunks + [Chunk(|chunks|, batch)])
  {
    AppendChunk(chunks, Chunk(|chunks|, batch));
    LastIsShorter(chunks, size, Chunk(|chunks|, batch));
  }

  lemma StillFull(chunks: seq<Chunk>, size: int, c: Chunk)
    requires AllFull(chunks, size) && c.seqNo == |chunks| && |c.rows| == size
    ensures AllFull(chunks + [c], size)
  {
    assert forall k | 0 <= k < |chunks| :: (chunks + [c])[k] == chunks[k];
  }

  lemma FullChunk(chunks: seq<Chunk>, size: int, batch: seq<string>)
    requires AllFull(chunks, size) && |batch| == size
    ensures AllFull(chunks + [Chunk(|chunks|, batch)], size)
    ensures Rows(chunks + [Chunk(|chunks|, batch)]) + [] == Rows(chunks) + batch
  {
    AppendChunk(chunks, Chunk(|chunks|, batch));
    StillFull(chunks, size, Chunk(|chunks|, batch));
  }

  /** Reading one more line. */
  lemma OneMoreLine(lines: seq<string>, i: nat)
    requires i < |lines|
    ensures NonEmpty(lines[..i + 1]) == NonEmpty(lines[..i]) + if lines[i] == "" then [] else [lines[i]]
    ensures NonEmpty(lines[..i]) <= NonEmpty(lines) && NonEmpty(lines[..i + 1]) <= NonEmpty(lines)
  {
    assert lines[..i + 1][..i] == lines[..i];
    NonEmptyPrefix(lines, i);
    NonEmptyPrefix(lines, i + 1);
  }

  /** The state of the scan loop after `i` lines. */
  ghost predicate Scanning(lines: seq<string>, i: nat, sent: seq<Chunk>, batch: seq<string>, total: nat, size: int)
    requires i <= |lines|
  {
    var read := NonEmpty(lines[..i]);
    AllFull(sent, size) && Rows(sent) + batch == read && total == |read| && read <= NonEmpty(lines)
  }

  /** What has been sent is an initial part of the chunks of the whole result. */
  ghost predicate IsPartOf(sent: seq<Chunk>, size: int, rows: seq<string>) {
    AllFull(sent, size) && Rows(sent) <= rows
  }

  /**
   * The scan loop. `cancelAt` is the line at which the context is found cancelled, `accepts` tells which chunks
   * the receiver takes, `readFails` whether the scanner is left with an error.
   */
  method StreamRows(lines: seq<string>, chunkSize: int, maxRows: int, accepts: nat -> bool, cancelAt: nat,
                    readFails: bool)
    returns (sent: seq<Chunk>, total: nat, err: Option<StreamError>)
    ensures var size := if chunkSize <= 0 then 5000 else chunkSize;
            var rows := Limited(NonEmpty(lines), maxRows);
            && (err.None? ==> IsChunking(rows, size, sent) && total == |rows|)
            && (err.Some? ==> IsPartOf(sent, size, rows) && total <= |rows|)
    ensures (forall k :: accepts(k)) && cancelAt >= |lines| && !readFails ==> err.None?
    ensures err == Some(Cancelled) ==> cancelAt < |lines|
    ensures err == Some(ReadFailed) ==> readFails
    ensures err == Some(ChunkRefused) ==> !accepts(|sent|)
  {
    var size := if chunkSize <= 0 then 5000 else chunkSize;
    sent, total, err := [], 0, None;
    var batch := [];
    var limited := false;
    var i := 0;
    while i < |lines| && !limited
      invariant 0 <= i <= |lines| && Scanning(lines, i, sent, batch, total, size)
      invariant if limited then 0 < maxRows == total && |batch| <= size
                else |batch| < size && (maxRows > 0 ==> total < maxRows)
      decreases |lines| - i
    {
      OneMoreLine(lines, i);
      if i == cancelAt {
        return sent, total, Some(Cancelled);
      }
      var line := lines[i];
      i := i + 1;
      if |line| == 0 {
        continue;
      }
      AppendMoves(Rows(sent), batch, [line]);
      batch := batch + [line];
      total := total + 1;
      if maxRows > 0 && total >= maxRows {
        limited := true;
      } else if |batch| >= size {
        if !accepts(|sent|) {
          return sent, total, Some(ChunkRefused);
        }
        FullChunk(sent, size, batch);
        sent := sent + [Chunk(|sent|, batch)];
        batch := [];
      }
    }
    assert !limited ==> lines[..i] == lines;
    if readFails {
      return sent, total, Some(ReadFailed);
    }
    sent, err := FlushLast(sent, batch, size, accepts);
  }

  /** Sends what is left in the batch. */
  method FlushLast(full: seq<Chunk>, batch: seq<string>, size: int, accepts: nat -> bool)
    returns (sent: seq<Chunk>, err: Option<StreamError>)
    requires AllFull(full, size) && size > 0 && |batch| <= size
    ensures err.None? ==> IsChunking(Rows(full) + batch, size, sent)
    ensures err.Some? ==> err == Some(ChunkRefused) && sent == full && !accepts(|full|)
  {
    if |batch| > 0 {
      if !accepts(|full|) {
        return full, Some(ChunkRefused);
      }
      LastChunk(full, size, batch);
      return full + [Chunk(|full|, batch)], None;
    }
    AllFullIsChunking(full, size);
    return full, None;
  }

  lemma AllFullIsChunking(chunks: seq<Chunk>, size: int)
    requires AllFull(chunks, size) && size > 0
    ensures IsChunking(Rows(chunks) + [], size, chunks)
  {
    assert Rows(chunks) + [] == Rows(chunks);
  }
}
