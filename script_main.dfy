/**
 * The `Main` class of dvr-recover.py around the chunk list: reading and
 * writing the chunk list file, `sort`, `reset` and `export`.
 *
 * The chunk list file is modelled by its text, the input files by their
 * bytes and the export directory by the files written to it, named by the
 * index of the chunk that starts them (`chunk_%04i.mpg`).
 */
module ScriptMain {
  import opened Wrappers
  import ChunkFile
  import ChunkSort
  import VirtualStream

  type Chunk = ChunkFile.Chunk

  /** The exceptions that end a command. */
  datatype MainError =
    | ListFailed(listError: ChunkFile.ListError)              // load_chunk_list on a bad line
    | ReaderFailed(readerError: VirtualStream.ReaderError)    // FileReaderError
    | UnexpectedResult                                        // a block read came back short
    | ConcatStart                                             // ExportError: the chunk continues another
    | BadChunkIndex                                           // ExportError: no chunk with that index

  // ---------------------------------------------------------------------------
  // What export writes
  // ---------------------------------------------------------------------------

  /**
   * `copy_chunk`: the chunk's `block_size` blocks from block `block_start`
   * of the stream.  The seek raises outside the stream, and a block that
   * comes back short raises UnexpectedResultError.
   */
  function ChunkBytes(stream: seq<bv8>, blocksize: nat, c: Chunk): (r: Result<seq<bv8>, MainError>)
  {
    ProductMonotone(0, if c.blockSize < 0 then 0 else c.blockSize, blocksize);
    Blocks(stream, Product(c.blockStart, blocksize), c.blockSize, Product(c.blockSize, blocksize))
  }

  /**
   * `count` blocks making `length` bytes from byte `offset` of the stream:
   * the seek raises outside the stream, and the blocks must all be there.
   */
  function Blocks(stream: seq<bv8>, offset: int, count: int, length: int): (r: Result<seq<bv8>, MainError>)
    requires count > 0 ==> length >= 0
    ensures r.Ok? ==> 0 <= offset < |stream|
    ensures r.Ok? && count > 0 ==> offset + length <= |stream| && r.value == stream[offset..offset + length]
    ensures r.Ok? && count <= 0 ==> r.value == []
    ensures r.Err? ==> r.error == ReaderFailed(VirtualStream.IndexOutOfRange) || r.error == UnexpectedResult
  {
    if offset < 0 || offset >= |stream| then Err(ReaderFailed(VirtualStream.IndexOutOfRange))
    else if count <= 0 then Ok([])
    else if offset + length <= |stream| then Ok(stream[offset..offset + length])
    else Err(UnexpectedResult)
  }

  /** `a` blocks of `blocksize` bytes, added up block by block. */
  function Product(a: int, blocksize: nat): (n: int)
    decreases if a < 0 then -a else a
  {
    if a == 0 then 0
    else if a > 0 then Product(a - 1, blocksize) + blocksize
    else Product(a + 1, blocksize) - blocksize
  }

  /** Adding up blocks is multiplying. */
  lemma {:induction false} ProductIs(a: int, blocksize: nat)
    ensures Product(a, blocksize) == a * blocksize
    decreases if a < 0 then -a else a
  {
    if a > 0 {
      ProductIs(a - 1, blocksize);
    } else if a < 0 {
      ProductIs(a + 1, blocksize);
    }
  }

  /** More blocks are never fewer bytes. */
  lemma {:induction false} ProductMonotone(i: nat, j: nat, blocksize: nat)
    requires i <= j
    ensures 0 <= Product(i, blocksize) <= Product(j, blocksize)
    decreases j
  {
    if i < j {
      ProductMonotone(i, j - 1, blocksize);
    } else if i > 0 {
      ProductMonotone(i - 1, j - 1, blocksize);
    }
  }

  /** Chunks `j` to `e - 1` copied one after the other into one file, up to the first error. */
  function CopyRange(stream: seq<bv8>, blocksize: nat, chunks: seq<Chunk>, j: nat, e: nat): Result<seq<bv8>, MainError>
    requires j <= e <= |chunks|
    decreases e - j
  {
    if e == j then Ok([])
    else
      var before :- CopyRange(stream, blocksize, chunks, j, e - 1);
      var bytes :- ChunkBytes(stream, blocksize, chunks[e - 1]);
      Ok(before + bytes)
  }

  /** The end of the run of `concat` chunks that starts at `j`. */
  function RunEnd(chunks: seq<Chunk>, j: nat): (e: nat)
    requires j <= |chunks|
    ensures j <= e <= |chunks|
    ensures forall k :: j <= k < e ==> chunks[k].concat
    ensures e < |chunks| ==> !chunks[e].concat
    decreases |chunks| - j
  {
    if j < |chunks| && chunks[j].concat then RunEnd(chunks, j + 1) else j
  }

  /** A run of `concat` chunks from `j` to `i` lies inside the run from `j`, and ends it at a chunk that starts a chain. */
  lemma {:induction false} RunEndAt(chunks: seq<Chunk>, j: nat, i: nat)
    requires j <= i <= |chunks| && forall k :: j <= k < i ==> chunks[k].concat
    ensures i <= RunEnd(chunks, j)
    ensures i == |chunks| || !chunks[i].concat ==> RunEnd(chunks, j) == i
    decreases i - j
  {
    if j < i {
      RunEndAt(chunks, j + 1, i);
    }
  }

  /**
   * `extract_chunk(i)`: the file of chunk `i` and the run of `concat`
   * chunks right after it; a chunk that continues another cannot start one.
   */
  function Extract(stream: seq<bv8>, blocksize: nat, chunks: seq<Chunk>, i: nat): Result<seq<bv8>, MainError>
    requires i < |chunks|
  {
    if chunks[i].concat then Err(ConcatStart)
    else CopyRange(stream, blocksize, chunks, i, RunEnd(chunks, i + 1))
  }

  /** The files in the export directory and the error that ended the export, if any. */
  datatype Outcome = Outcome(files: map<nat, seq<bv8>>, error: Option<MainError>)

  /** What `extract_chunk` gives for each chunk index. */
  function Extracts(stream: seq<bv8>, blocksize: nat, chunks: seq<Chunk>): (rs: seq<Result<seq<bv8>, MainError>>)
    ensures |rs| == |chunks|
    ensures forall i :: 0 <= i < |chunks| ==> rs[i] == Extract(stream, blocksize, chunks, i)
  {
    seq(|chunks|, i requires 0 <= i < |chunks| => Extract(stream, blocksize, chunks, i))
  }

  /**
   * `export` without a chunk index, over the first `k` chunks, with
   * `results[i]` the outcome of `extract_chunk(i)`: one file per chunk that
   * starts a chain, up to the first error.
   */
  function ExportAll(results: seq<Result<seq<bv8>, MainError>>, chunks: seq<Chunk>, k: nat, files: map<nat, seq<bv8>>): Outcome
    requires |results| == |chunks| && k <= |chunks|
  {
    if k == 0 then Outcome(files, None)
    else
      var o := ExportAll(results, chunks, k - 1, files);
      if o.error.Some? || chunks[k - 1].concat then o
      else match results[k - 1]
        case Err(e) => Outcome(o.files, Some(e))
        case Ok(bytes) => Outcome(o.files[k - 1 := bytes], None)
  }

  // ---------------------------------------------------------------------------
  // Properties of the export
  // ---------------------------------------------------------------------------

  /** Once a chunk fails to copy, the whole file fails with its error. */
  lemma {:induction false} CopyRangeStops(stream: seq<bv8>, blocksize: nat, chunks: seq<Chunk>, j: nat, k: nat, e: nat)
    requires j <= k <= e <= |chunks| && CopyRange(stream, blocksize, chunks, j, k).Err?
    ensures CopyRange(stream, blocksize, chunks, j, e) == CopyRange(stream, blocksize, chunks, j, k)
    decreases e
  {
    if k < e {
      CopyRangeStops(stream, blocksize, chunks, j, k, e - 1);
    }
  }

  /**
   * The file is written exactly when every chunk in it copies, and it is
   * then their bytes one after the other.
   */
  lemma {:induction false} CopyRangeOk(stream: seq<bv8>, blocksize: nat, chunks: seq<Chunk>, j: nat, e: nat)
    requires j <= e <= |chunks|
    ensures CopyRange(stream, blocksize, chunks, j, e).Ok? <==>
      forall k :: j <= k < e ==> ChunkBytes(stream, blocksize, chunks[k]).Ok?
    ensures CopyRange(stream, blocksize, chunks, j, e).Ok? && j < e ==>
      CopyRange(stream, blocksize, chunks, j, e).value ==
        CopyRange(stream, blocksize, chunks, j, e - 1).value + ChunkBytes(stream, blocksize, chunks[e - 1]).value
    decreases e - j
  {
    if j < e {
      CopyRangeOk(stream, blocksize, chunks, j, e - 1);
      if CopyRange(stream, blocksize, chunks, j, e).Ok? {
        assert CopyRange(stream, blocksize, chunks, j, e - 1).Ok?;
      }
    }
  }

  /** Once an export fails, the later chunks change nothing. */
  lemma {:induction false} ExportAllStops(results: seq<Result<seq<bv8>, MainError>>, chunks: seq<Chunk>, k: nat, m: nat,
                                          files: map<nat, seq<bv8>>)
    requires |results| == |chunks| && k <= m <= |chunks| && ExportAll(results, chunks, k, files).error.Some?
    ensures ExportAll(results, chunks, m, files) == ExportAll(results, chunks, k, files)
    decreases m
  {
    if k < m {
      ExportAllStops(results, chunks, k, m - 1, files);
    }
  }

  /**
   * An export of all chunks that succeeds writes, besides the files already
   * there, exactly one file per chunk that does not continue another: its
   * chain as extracted.
   */
  lemma {:induction false} ExportAllFiles(results: seq<Result<seq<bv8>, MainError>>, chunks: seq<Chunk>, k: nat,
                                          files: map<nat, seq<bv8>>)
    requires |results| == |chunks| && k <= |chunks|
    ensures var o := ExportAll(results, chunks, k, files);
      o.error.None? ==>
        && (forall i: nat :: i in o.files <==> i in files || (i < k && !chunks[i].concat))
        && (forall i :: 0 <= i < k && !chunks[i].concat ==> results[i].Ok? && o.files[i] == results[i].value)
  {
    if k > 0 {
      ExportAllFiles(results, chunks, k - 1, files);
      var o := ExportAll(results, chunks, k - 1, files);
      var n := ExportAll(results, chunks, k, files);
      if n.error.None? {
        assert o.error.None?;
        if chunks[k - 1].concat {
          assert n == o;
        } else {
          assert results[k - 1].Ok? && n.files == o.files[k - 1 := results[k - 1].value];
          forall i: nat
            ensures i in n.files <==> i in files || (i < k && !chunks[i].concat)
          {
            assert i in n.files <==> i in o.files || i == k - 1;
          }
          forall i | 0 <= i < k && !chunks[i].concat
            ensures results[i].Ok? && n.files[i] == results[i].value
          {
            if i < k - 1 {
              assert n.files[i] == o.files[i];
            }
          }
        }
      }
    }
  }

  /** An export of all chunks that fails ends at a chunk that starts a chain and whose extraction fails with that error. */
  lemma {:induction false} ExportAllError(results: seq<Result<seq<bv8>, MainError>>, chunks: seq<Chunk>, k: nat,
                                          files: map<nat, seq<bv8>>)
    requires |results| == |chunks| && k <= |chunks|
    ensures var o := ExportAll(results, chunks, k, files);
      o.error.Some? ==>
        exists i :: 0 <= i < k && !chunks[i].concat && results[i] == Err(o.error.value)
                    && forall j :: 0 <= j < i && !chunks[j].concat ==> results[j].Ok?
  {
    if k > 0 {
      var o := ExportAll(results, chunks, k - 1, files);
      var n := ExportAll(results, chunks, k, files);
      if o.error.Some? {
        ExportAllError(results, chunks, k - 1, files);
        assert n == o;
      } else if n.error.Some? {
        ExportAllFiles(results, chunks, k - 1, files);
        assert !chunks[k - 1].concat && results[k - 1] == Err(n.error.value);
      }
    }
  }

  /** A chain extracted after `sort` is made of chunks that each continue the one before within the gap. */
  lemma SortedRunLinks(sorted: seq<Chunk>, gap: int, order: seq<nat>, result: seq<Chunk>, i: nat)
    requires ChunkSort.Chained(sorted, gap, order, result) && i < |result|
    ensures forall k :: i < k < RunEnd(result, i + 1) ==> ChunkSort.Admissible(result[k - 1], result[k], gap)
  {
    ChunkSort.ChainedLinks(sorted, gap, order, result);
  }

  /** Two adjacent slices of a sequence make the slice that spans both. */
  lemma SliceJoin<T>(s: seq<T>, a: nat, b: nat, c: nat)
    requires a <= b <= c <= |s|
    ensures s[a..b] + s[b..c] == s[a..c]
  {
  }

  /**
   * `reader.read(blocksize)` at byte `v` of the stream, with no error when
   * reading past the end: the next block and the reader after it, or fewer
   * bytes than a block at the end of the stream.
   */
  lemma ReadBlock(parts: seq<seq<bv8>>, part: nat, position: nat, v: nat, blocksize: nat)
    requires VirtualStream.At(parts, Some(part), Some(position), v)
    ensures |VirtualStream.Flatten(parts)| == VirtualStream.Size(parts) && v <= VirtualStream.Size(parts)
    ensures var s := VirtualStream.ReadFrom(parts, false, Some(part), Some(position), blocksize);
      && s.result.Ok?
      && (v + blocksize <= VirtualStream.Size(parts) ==>
            s.result.value == VirtualStream.Flatten(parts)[v..v + blocksize]
            && VirtualStream.At(parts, s.currentFile, s.file, v + blocksize))
      && (v + blocksize > VirtualStream.Size(parts) ==> |s.result.value| < blocksize)
  {
    VirtualStream.ReadIsStreamSlice(parts, false, part, position, blocksize);
    if v + blocksize <= VirtualStream.Size(parts) {
      VirtualStream.ReadMoves(parts, false, part, position, blocksize);
    }
  }

  // ---------------------------------------------------------------------------
  // The Main class
  // ---------------------------------------------------------------------------

  class Main {
    /** `self.chunks`. */
    var chunks: seq<Chunk>
    /** The text of the chunk list file. */
    var chunkFile: string
    /** The files in the export directory, by the index of the chunk that starts them. */
    var exported: map<nat, seq<bv8>>
    /** The input files, by their bytes. */
    const parts: seq<seq<bv8>>
    const blocksize: nat
    const maxSortGap: int

    /** `__init__` followed by `load_settings`, with the settings given. */
    constructor (parts: seq<seq<bv8>>, chunkFile: string, blocksize: nat, maxSortGap: int)
      ensures this.parts == parts && this.chunkFile == chunkFile
      ensures this.blocksize == blocksize && this.maxSortGap == maxSortGap
      ensures chunks == [] && exported == map[]
    {
      this.parts := parts;
      this.chunkFile := chunkFile;
      this.blocksize := blocksize;
      this.maxSortGap := maxSortGap;
      chunks := [];
      exported := map[];
    }

    /** `load_chunk_list`: one chunk per line of the file, or the error of the first bad line. */
    method LoadChunkList() returns (error: Option<ChunkFile.ListError>)
      modifies this
      ensures chunkFile == old(chunkFile) && exported == old(exported)
      ensures ChunkFile.Parse(chunkFile).Ok? ==> error.None? && chunks == ChunkFile.Parse(chunkFile).value
      ensures ChunkFile.Parse(chunkFile).Err? ==> error == Some(ChunkFile.Parse(chunkFile).error)
    {
      var lines := ChunkFile.FileLines(chunkFile);
      chunks := [];
      for i := 0 to |lines|
        invariant chunkFile == old(chunkFile) && exported == old(exported)
        invariant ChunkFile.ParseLines(lines[..i]) == Ok(chunks)
      {
        assert lines[..i + 1][..i] == lines[..i];
        var chunk := ChunkFile.ParseLine(lines[i]);
        if chunk.Err? {
          ChunkFile.ParseLinesStops(lines, i + 1);
          return Some(chunk.error);
        }
        chunks := chunks + [chunk.value];
      }
      assert lines[..|lines|] == lines;
      return None;
    }

    /** `save_chunk_list`: the file is rewritten with one line per chunk. */
    method SaveChunkList()
      modifies this
      ensures chunkFile == ChunkFile.Format(chunks)
      ensures chunks == old(chunks) && exported == old(exported)
    {
      chunkFile := "";
      for i := 0 to |chunks|
        invariant chunks == old(chunks) && exported == old(exported)
        invariant chunkFile == ChunkFile.Format(chunks[..i])
      {
        ChunkFile.FormatSnoc(chunks[..i], chunks[i]);
        assert chunks[..i + 1] == chunks[..i] + [chunks[i]];
        chunkFile := chunkFile + ChunkFile.Line(chunks[i]);
      }
      assert chunks[..|chunks|] == chunks;
    }

    /**
     * `sort`: the chunks sorted by `clock_start` and linked, each chain
     * following the chunk it continues, and the list written back.
     */
    method Sort() returns (error: Option<ChunkFile.ListError>)
      modifies this
      ensures exported == old(exported)
      ensures ChunkFile.Parse(old(chunkFile)).Err? ==>
        error == Some(ChunkFile.Parse(old(chunkFile)).error) && chunkFile == old(chunkFile)
      ensures ChunkFile.Parse(old(chunkFile)).Ok? ==>
        && error.None? && chunkFile == ChunkFile.Format(chunks)
        && exists order :: ChunkSort.Chained(ChunkSort.SortBy(ChunkSort.ClockStart, ChunkFile.Parse(old(chunkFile)).value),
                                             maxSortGap, order, chunks)
    {
      error := LoadChunkList();
      if error.Some? {
        return;
      }
      var sorted := ChunkSort.SortBy(ChunkSort.ClockStart, chunks);
      ghost var order;
      chunks, order := ChunkSort.Link(sorted, maxSortGap);
      SaveChunkList();
      assert ChunkSort.Chained(sorted, maxSortGap, order, chunks);
    }

    /** `reset`: the chunks sorted by `block_start`, every `concat` cleared, and the list written back. */
    method Reset() returns (error: Option<ChunkFile.ListError>)
      modifies this
      ensures exported == old(exported)
      ensures ChunkFile.Parse(old(chunkFile)).Err? ==>
        error == Some(ChunkFile.Parse(old(chunkFile)).error) && chunkFile == old(chunkFile)
      ensures ChunkFile.Parse(old(chunkFile)).Ok? ==>
        var sorted := ChunkSort.SortBy(ChunkSort.BlockStart, ChunkFile.Parse(old(chunkFile)).value);
        && error.None? && chunkFile == ChunkFile.Format(chunks) && |chunks| == |sorted|
        && forall k :: 0 <= k < |chunks| ==> chunks[k] == sorted[k].(concat := false)
    {
      error := LoadChunkList();
      if error.Some? {
        return;
      }
      chunks := ChunkSort.SortBy(ChunkSort.BlockStart, chunks);
      ghost var sorted := chunks;
      for i := 0 to |chunks|
        invariant exported == old(exported) && |chunks| == |sorted|
        invariant forall k :: 0 <= k < i ==> chunks[k] == sorted[k].(concat := false)
        invariant forall k :: i <= k < |chunks| ==> chunks[k] == sorted[k]
      {
        chunks := chunks[i := chunks[i].(concat := false)];
      }
      SaveChunkList();
    }

    /** `reader.read(self.blocksize)` with the reader at byte `v` of the stream. */
    method ReadAt(reader: VirtualStream.FileReader, ghost v: nat) returns (data: Result<seq<bv8>, VirtualStream.ReaderError>)
      requires reader.Valid() && reader.parts == parts && !reader.strict
      requires VirtualStream.At(parts, reader.currentFile, reader.file, v)
      modifies reader
      ensures reader.Valid() && v <= |VirtualStream.Flatten(parts)| && data.Ok?
      ensures v + blocksize <= |VirtualStream.Flatten(parts)| ==>
        data.value == VirtualStream.Flatten(parts)[v..v + blocksize]
        && VirtualStream.At(parts, reader.currentFile, reader.file, v + blocksize)
      ensures v + blocksize > |VirtualStream.Flatten(parts)| ==> |data.value| < blocksize
    {
      ReadBlock(parts, reader.currentFile.value, reader.file.value, v, blocksize);
      data := reader.Read(blocksize);
    }

    /** `copy_chunk` with a reader of the input files. */
    method CopyChunk(reader: VirtualStream.FileReader, chunk: Chunk) returns (result: Result<seq<bv8>, MainError>)
      requires reader.Valid() && reader.parts == parts && !reader.strict
      modifies reader
      ensures reader.Valid()
      ensures result == ChunkBytes(VirtualStream.Flatten(parts), blocksize, chunk)
    {
      VirtualStream.FlattenSize(parts);
      var offset := chunk.blockStart * blocksize;
      ProductIs(chunk.blockStart, blocksize);
      var raised := reader.Seek(offset);
      if raised.Some? {
        return Err(ReaderFailed(raised.value));
      }
      VirtualStream.IndexIsPart(parts, offset, reader.currentFile.value);
      ghost var length := Product(chunk.blockSize, blocksize);
      ProductMonotone(0, if chunk.blockSize < 0 then 0 else chunk.blockSize, blocksize);
      var bytes := CopyBlocks(reader, chunk.blockSize, offset, length);
      if bytes.None? {
        return Err(UnexpectedResult);
      }
      return Ok(bytes.value);
    }

    /** The loop of `copy_chunk`: `count` blocks read from byte `start` on, or None at a short block. */
    method CopyBlocks(reader: VirtualStream.FileReader, count: int, ghost start: nat, ghost length: int)
      returns (bytes: Option<seq<bv8>>)
      requires reader.Valid() && reader.parts == parts && !reader.strict
      requires VirtualStream.At(parts, reader.currentFile, reader.file, start)
      requires length == Product(count, blocksize) && (count > 0 ==> length >= 0)
      modifies reader
      ensures reader.Valid()
      ensures bytes.Some? <==> count <= 0 || start + length <= |VirtualStream.Flatten(parts)|
      ensures bytes.Some? && count <= 0 ==> bytes.value == []
      ensures bytes.Some? && count > 0 ==> bytes.value == VirtualStream.Flatten(parts)[start..start + length]
    {
      ghost var stream := VirtualStream.Flatten(parts);
      ReadBlock(parts, reader.currentFile.value, reader.file.value, start, blocksize);
      var buf: seq<bv8> := [];
      var i := 0;
      ghost var v: nat := start;
      while i < count
        invariant 0 <= i <= (if count > 0 then count else 0)
        invariant reader.Valid() && reader.parts == parts && !reader.strict
        invariant v == start + Product(i, blocksize) && start <= v <= |stream|
        invariant VirtualStream.At(parts, reader.currentFile, reader.file, v)
        invariant buf == stream[start..v]
      {
        var data := ReadAt(reader, v);
        if |data.value| != blocksize {
          ProductMonotone(i + 1, count, blocksize);
          return None;
        }
        SliceJoin(stream, start, v, v + blocksize);
        buf := buf + data.value;
        v := v + blocksize;
        i := i + 1;
      }
      return Some(buf);
    }

    /**
     * `extract_chunk(chunk_index)`: the chunk and the chunks that continue
     * it copied into one new file, with a new reader.
     */
    method ExtractChunk(chunkIndex: nat) returns (error: Option<MainError>)
      requires chunkIndex < |chunks|
      modifies this
      ensures chunks == old(chunks) && chunkFile == old(chunkFile)
      ensures var r := Extract(VirtualStream.Flatten(parts), blocksize, chunks, chunkIndex);
        && (r.Ok? ==> error.None? && exported == old(exported)[chunkIndex := r.value])
        && (r.Err? ==> error == Some(r.error) && exported == old(exported))
    {
      if chunks[chunkIndex].concat {
        return Some(ConcatStart);
      }
      var reader := new VirtualStream.FileReader(parts, false);
      var outf := CopyChain(reader, chunkIndex);
      if outf.Err? {
        return Some(outf.error);
      }
      exported := exported[chunkIndex := outf.value];
      reader.Close();
      return None;
    }

    /** The copying loop of `extract_chunk`: the chunk, then each chunk after it while they continue it. */
    method CopyChain(reader: VirtualStream.FileReader, chunkIndex: nat) returns (outf: Result<seq<bv8>, MainError>)
      requires chunkIndex < |chunks|
      requires reader.Valid() && reader.parts == parts && !reader.strict
      modifies reader
      ensures reader.Valid()
      ensures outf == CopyRange(VirtualStream.Flatten(parts), blocksize, chunks, chunkIndex, RunEnd(chunks, chunkIndex + 1))
    {
      ghost var stream := VirtualStream.Flatten(parts);
      ghost var end := RunEnd(chunks, chunkIndex + 1);
      var first := CopyChunk(reader, chunks[chunkIndex]);
      if first.Err? {
        CopyRangeStops(stream, blocksize, chunks, chunkIndex, chunkIndex + 1, end);
        return first;
      }
      var bytes := first.value;
      assert CopyRange(stream, blocksize, chunks, chunkIndex, chunkIndex + 1) == Ok([] + bytes);
      assert [] + bytes == bytes;
      var i := chunkIndex + 1;
      while i < |chunks| && chunks[i].concat
        invariant chunkIndex < i <= |chunks|
        invariant reader.Valid() && reader.parts == parts && !reader.strict
        invariant forall k :: chunkIndex < k < i ==> chunks[k].concat
        invariant CopyRange(stream, blocksize, chunks, chunkIndex, i) == Ok(bytes)
        decreases |chunks| - i
      {
        var next := CopyChunk(reader, chunks[i]);
        if next.Err? {
          RunEndAt(chunks, chunkIndex + 1, i + 1);
          CopyRangeStops(stream, blocksize, chunks, chunkIndex, i + 1, end);
          return Err(next.error);
        }
        assert CopyRange(stream, blocksize, chunks, chunkIndex, i + 1) == Ok(bytes + next.value);
        bytes := bytes + next.value;
        i := i + 1;
      }
      RunEndAt(chunks, chunkIndex + 1, i);
      return Ok(bytes);
    }

    /**
     * `export`: with no chunk index, every chunk that starts a chain is
     * extracted in order; with an index, that chunk, which must exist.
     */
    method Export(index: Option<int>) returns (error: Option<MainError>)
      modifies this
      ensures chunkFile == old(chunkFile)
      ensures ChunkFile.Parse(chunkFile).Err? ==>
        error == Some(ListFailed(ChunkFile.Parse(chunkFile).error)) && exported == old(exported)
      ensures ChunkFile.Parse(chunkFile).Ok? ==> chunks == ChunkFile.Parse(chunkFile).value
      ensures ChunkFile.Parse(chunkFile).Ok? && index.None? ==>
        Outcome(exported, error) == ExportAll(Extracts(VirtualStream.Flatten(parts), blocksize, chunks), chunks, |chunks|, old(exported))
      ensures ChunkFile.Parse(chunkFile).Ok? && index.Some? && !(0 <= index.value < |chunks|) ==>
        error == Some(BadChunkIndex) && exported == old(exported)
      ensures ChunkFile.Parse(chunkFile).Ok? && index.Some? && 0 <= index.value < |chunks| ==>
        var r := Extract(VirtualStream.Flatten(parts), blocksize, chunks, index.value);
        && (r.Ok? ==> error.None? && exported == old(exported)[index.value := r.value])
        && (r.Err? ==> error == Some(r.error) && exported == old(exported))
    {
      var failed := LoadChunkList();
      if failed.Some? {
        return Some(ListFailed(failed.value));
      }
      if index.None? {
        error := ExportEvery();
        return;
      }
      var i := index.value;
      if 0 <= i < |chunks| {
        error := ExtractChunk(i);
      } else {
        return Some(BadChunkIndex);
      }
    }

    /** The loop of `export` without a chunk index. */
    method ExportEvery() returns (error: Option<MainError>)
      modifies this
      ensures chunks == old(chunks) && chunkFile == old(chunkFile)
      ensures Outcome(exported, error) == ExportAll(Extracts(VirtualStream.Flatten(parts), blocksize, chunks), chunks, |chunks|, old(exported))
    {
      ghost var results := Extracts(VirtualStream.Flatten(parts), blocksize, chunks);
      for i := 0 to |chunks|
        invariant chunks == old(chunks) && chunkFile == old(chunkFile)
        invariant ExportAll(results, chunks, i, old(exported)) == Outcome(exported, None)
      {
        if !chunks[i].concat {
          error := ExtractChunk(i);
          if error.Some? {
            ExportAllStops(results, chunks, i + 1, |chunks|, old(exported));
            return;
          }
        }
      }
      return None;
    }
  }
}
