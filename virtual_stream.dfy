/**
 * The multi-file reader of the Python tools (`FileReader` in dvr-recover.py
 * and in dvrrecover/filereader.py): the parts of a split disk image, read as
 * one stream.  A part is modelled by its bytes; its size is their number.
 *
 * The two copies of the class differ in one place: reading with no part open
 * returns an empty string in dvr-recover.py and raises in filereader.py.  The
 * flag `strict` selects the filereader.py behaviour.
 */
module VirtualStream {
  import opened Wrappers

  /** The exceptions `FileReaderError` is raised with. */
  datatype ReaderError = DeviceFile | IndexOutOfRange | NoFileOpen | IncompleteBuffer

  /** `get_size`: the sizes of all parts added up. */
  function Size(parts: seq<seq<bv8>>): nat
  {
    if parts == [] then 0 else Size(parts[..|parts| - 1]) + |parts[|parts| - 1]|
  }

  /** `get_offset`: the sizes of the parts before part `index` added up. */
  function Offset(parts: seq<seq<bv8>>, index: int): nat
  {
    if index <= 0 then 0
    else if index >= |parts| then Size(parts)
    else Size(parts[..index])
  }

  /** The loop of `get_index` from part `index`, which starts at byte `start`. */
  function IndexFrom(parts: seq<seq<bv8>>, offset: int, index: nat, start: nat): Option<nat>
    requires index <= |parts|
    decreases |parts| - index
  {
    if index == |parts| then None
    else if start <= offset < start + |parts[index]| then Some(index)
    else IndexFrom(parts, offset, index + 1, start + |parts[index]|)
  }

  /** `get_index`: the part that holds byte `offset` of the stream, or None. */
  function Index(parts: seq<seq<bv8>>, offset: int): Option<nat>
  {
    IndexFrom(parts, offset, 0, 0)
  }

  /** The stream: the parts one after the other. */
  function Flatten(parts: seq<seq<bv8>>): (stream: seq<bv8>)
  {
    if parts == [] then [] else Flatten(parts[..|parts| - 1]) + parts[|parts| - 1]
  }

  /** The stream is as long as the parts together. */
  lemma {:induction false} FlattenSize(parts: seq<seq<bv8>>)
    ensures |Flatten(parts)| == Size(parts)
  {
    if parts != [] {
      FlattenSize(parts[..|parts| - 1]);
    }
  }

  /** Part `i` starts where part `i - 1` ends, and the last part ends at the total size. */
  lemma {:induction false} OffsetStep(parts: seq<seq<bv8>>, i: nat)
    requires i < |parts|
    ensures Offset(parts, i + 1) == Offset(parts, i) + |parts[i]|
  {
    assert parts[..i + 1][..i] == parts[..i];
    if i + 1 == |parts| {
      assert parts[..i + 1] == parts;
    }
  }

  /** No part starts after the end of the stream. */
  lemma {:induction false} OffsetBound(parts: seq<seq<bv8>>, i: nat)
    requires i <= |parts|
    ensures Offset(parts, i) <= Size(parts)
    decreases |parts| - i
  {
    if i < |parts| {
      OffsetStep(parts, i);
      OffsetBound(parts, i + 1);
    }
  }

  /** The stream of the parts before and after a split is the two streams joined. */
  lemma {:induction false} FlattenAppend(a: seq<seq<bv8>>, b: seq<seq<bv8>>)
    ensures Flatten(a + b) == Flatten(a) + Flatten(b)
    decreases |b|
  {
    if b != [] {
      var b' := b[..|b| - 1];
      assert (a + b)[..|a + b| - 1] == a + b';
      assert (a + b)[|a + b| - 1] == b[|b| - 1];
      FlattenAppend(a, b');
      assert Flatten(b) == Flatten(b') + b[|b| - 1];
    } else {
      assert a + b == a;
    }
  }

  /** Bytes lo to hi of part `i` are bytes Offset + lo to Offset + hi of the stream. */
  lemma FlattenSlice(parts: seq<seq<bv8>>, i: nat, lo: nat, hi: nat)
    requires i < |parts| && lo <= hi <= |parts[i]|
    ensures Offset(parts, i) + hi <= |Flatten(parts)|
    ensures Flatten(parts)[Offset(parts, i) + lo..Offset(parts, i) + hi] == parts[i][lo..hi]
  {
    var upto, after := parts[..i + 1], parts[i + 1..];
    assert upto[..i] == parts[..i];
    var head := Flatten(parts[..i]);
    assert Flatten(upto) == head + parts[i];
    assert parts == upto + after;
    FlattenAppend(upto, after);
    FlattenSize(parts[..i]);
    assert Offset(parts, i) == |head| by {
      if i == 0 {
        assert parts[..i] == [];
      }
    }
    var f := Flatten(parts);
    assert f == head + parts[i] + Flatten(after);
    MiddleSlice(head, parts[i], Flatten(after), lo, hi);
  }

  /** A slice of the middle piece of a concatenation, taken from the whole. */
  lemma MiddleSlice(a: seq<bv8>, b: seq<bv8>, c: seq<bv8>, lo: nat, hi: nat)
    requires lo <= hi <= |b|
    ensures (a + b + c)[|a| + lo..|a| + hi] == b[lo..hi]
  {
    var f := a + b + c;
    forall k | 0 <= k < hi - lo
      ensures f[|a| + lo..|a| + hi][k] == b[lo..hi][k]
    {
      assert f[|a| + lo + k] == b[lo + k];
    }
  }

  /** The search from part `index` finds a part exactly when the offset lies in one of the remaining parts. */
  lemma {:induction false} IndexFromFinds(parts: seq<seq<bv8>>, offset: int, index: nat, i: nat)
    requires index <= |parts|
    ensures IndexFrom(parts, offset, index, Offset(parts, index)) == Some(i)
      <==> index <= i < |parts| && Offset(parts, i) <= offset < Offset(parts, i) + |parts[i]|
    decreases |parts| - index
  {
    if index < |parts| {
      OffsetStep(parts, index);
      IndexFromFinds(parts, offset, index + 1, i);
      if index < i < |parts| {
        OffsetMonotone(parts, index + 1, i);
      }
    }
  }

  lemma {:induction false} OffsetMonotone(parts: seq<seq<bv8>>, i: nat, j: nat)
    requires i <= j <= |parts|
    ensures Offset(parts, i) <= Offset(parts, j)
    decreases j - i
  {
    if i < j {
      OffsetStep(parts, i);
      OffsetMonotone(parts, i + 1, j);
    }
  }

  /**
   * `get_index(offset)` is the part i with get_offset(i) <= offset <
   * get_offset(i) + size_i, and None exactly when the offset lies outside
   * the stream.
   */
  lemma IndexIsPart(parts: seq<seq<bv8>>, offset: int, i: nat)
    ensures Index(parts, offset) == Some(i)
      <==> i < |parts| && Offset(parts, i) <= offset < Offset(parts, i) + |parts[i]|
    ensures Index(parts, offset).None? <==> !(0 <= offset < Size(parts))
  {
    IndexFromFinds(parts, offset, 0, i);
    IndexNone(parts, offset, 0);
  }

  lemma {:induction false} IndexNone(parts: seq<seq<bv8>>, offset: int, index: nat)
    requires index <= |parts|
    ensures IndexFrom(parts, offset, index, Offset(parts, index)).None?
      <==> !(Offset(parts, index) <= offset < Size(parts))
    decreases |parts| - index
  {
    if index < |parts| {
      OffsetStep(parts, index);
      IndexNone(parts, offset, index + 1);
      OffsetBound(parts, index + 1);
    } else {
      assert Offset(parts, index) == Size(parts);
    }
  }

  /** What a `read(size)` call returns and leaves behind: the result and the new `current_file` and `file`. */
  datatype ReadState = ReadState(result: Result<seq<bv8>, ReaderError>, currentFile: Option<nat>, file: Option<nat>)

  /** A reader state in which `current_file` and `file` are set together. */
  predicate Consistent(parts: seq<seq<bv8>>, currentFile: Option<nat>, file: Option<nat>)
  {
    currentFile.Some? == file.Some? && (currentFile.Some? ==> currentFile.value < |parts|)
  }

  /** The parts still to be read: what bounds the recursion of `read`. */
  function Remaining(parts: seq<seq<bv8>>, currentFile: Option<nat>): nat
  {
    if currentFile.Some? && currentFile.value < |parts| then |parts| - currentFile.value else 0
  }

  /** The bytes `file.read(size)` returns from a part at position `position`. */
  function ReadPart(part: seq<bv8>, position: nat, size: nat): (buf: seq<bv8>)
    ensures |buf| <= size
  {
    if position >= |part| then []
    else if position + size <= |part| then part[position..position + size]
    else part[position..]
  }

  /**
   * `read(size)` with part `currentFile` open at `file`: the part's bytes,
   * and on a short read at the part's end the rest from the next part.
   */
  function ReadFrom(parts: seq<seq<bv8>>, strict: bool, currentFile: Option<nat>, file: Option<nat>, size: nat): (s: ReadState)
    requires Consistent(parts, currentFile, file)
    ensures Consistent(parts, s.currentFile, s.file)
    decreases Remaining(parts, currentFile)
  {
    if file.None? then
      ReadState(if strict then Err(NoFileOpen) else Ok([]), None, None)
    else
      var part := parts[currentFile.value];
      var buf := ReadPart(part, file.value, size);
      var position := file.value + |buf|;
      if |buf| == size then ReadState(Ok(buf), currentFile, Some(position))
      else if position == |part| then
        var next := currentFile.value + 1;
        var rest := if next < |parts| then ReadFrom(parts, strict, Some(next), Some(0), size - |buf|)
                    else ReadFrom(parts, strict, None, None, size - |buf|);
        ReadState(if rest.result.Ok? then Ok(buf + rest.result.value) else rest.result, rest.currentFile, rest.file)
      else ReadState(Err(IncompleteBuffer), currentFile, Some(position))
  }

  /**
   * What reading `size` bytes at byte `v` of a stream should give: the next
   * `size` bytes; past the end, an error when `strict` and otherwise the
   * bytes up to the end.
   */
  function StreamRead(stream: seq<bv8>, strict: bool, v: nat, size: nat): Result<seq<bv8>, ReaderError>
    requires v <= |stream|
  {
    if v + size <= |stream| then Ok(stream[v..v + size])
    else if strict then Err(NoFileOpen)
    else Ok(stream[v..])
  }

  /** A read result with `buf` read before it. */
  function Prefixed(buf: seq<bv8>, r: Result<seq<bv8>, ReaderError>): Result<seq<bv8>, ReaderError>
  {
    if r.Ok? then Ok(buf + r.value) else r
  }

  /** Reading in two steps reads the same bytes as reading at once. */
  lemma StreamReadSplit(stream: seq<bv8>, strict: bool, v: nat, k: nat, size: nat)
    requires k <= size && v + k <= |stream|
    ensures StreamRead(stream, strict, v, size) == Prefixed(stream[v..v + k], StreamRead(stream, strict, v + k, size - k))
  {
    if v + size <= |stream| {
      assert stream[v..v + size] == stream[v..v + k] + stream[v + k..v + size];
    } else {
      assert stream[v..] == stream[v..v + k] + stream[v + k..];
    }
  }

  /**
   * A read from inside the stream returns the next `size` bytes of the
   * stream.  A read past its end closes the reader and then raises in
   * filereader.py, and returns the bytes up to the end in dvr-recover.py.
   */
  lemma {:induction false} ReadIsStreamSlice(parts: seq<seq<bv8>>, strict: bool, i: nat, position: nat, size: nat)
    requires i < |parts| && position <= |parts[i]|
    ensures |Flatten(parts)| == Size(parts) && Offset(parts, i) + position <= Size(parts)
    ensures var v, s := Offset(parts, i) + position, ReadFrom(parts, strict, Some(i), Some(position), size);
      s.result == StreamRead(Flatten(parts), strict, v, size)
      && (v + size > Size(parts) ==> s.currentFile == None && s.file == None)
    decreases |parts| - i
  {
    FlattenSize(parts);
    var part := parts[i];
    var f := Flatten(parts);
    var v := Offset(parts, i) + position;
    var buf := ReadPart(part, position, size);
    OffsetStep(parts, i);
    OffsetBound(parts, i + 1);
    FlattenSlice(parts, i, position, position + |buf|);
    assert buf == f[v..v + |buf|];
    if |buf| < size {
      StreamReadSplit(f, strict, v, |buf|, size);
      if i + 1 < |parts| {
        ReadIsStreamSlice(parts, strict, i + 1, 0, size - |buf|);
      } else {
        assert v + |buf| == |f| && f[|f|..] == [] && buf + [] == buf;
        assert StreamRead(f, strict, v + |buf|, size - |buf|) == if strict then Err(NoFileOpen) else Ok([]);
      }
    }
  }

  /**
   * After `seek(offset)` to a byte of the stream, `read(size)` returns the
   * stream from `offset` on.
   */
  lemma ReadAfterSeek(parts: seq<seq<bv8>>, strict: bool, offset: int, size: nat)
    requires 0 <= offset < Size(parts) && offset + size <= Size(parts)
    ensures |Flatten(parts)| == Size(parts)
    ensures var i := Index(parts, offset);
      i.Some? && i.value < |parts| && Offset(parts, i.value) <= offset
      && ReadFrom(parts, strict, i, Some(offset - Offset(parts, i.value)), size).result
         == Ok(Flatten(parts)[offset..offset + size])
  {
    IndexIsPart(parts, offset, 0);
    var i := Index(parts, offset).value;
    IndexIsPart(parts, offset, i);
    ReadIsStreamSlice(parts, strict, i, offset - Offset(parts, i), size);
  }

  /** The reader has part `currentFile` open at `file`, which is byte `v` of the stream. */
  predicate At(parts: seq<seq<bv8>>, currentFile: Option<nat>, file: Option<nat>, v: nat)
  {
    && currentFile.Some? && file.Some? && currentFile.value < |parts|
    && file.value <= |parts[currentFile.value]| && Offset(parts, currentFile.value) + file.value == v
  }

  /** A read that stays inside the stream leaves the reader just after the bytes it read. */
  lemma {:induction false} ReadMoves(parts: seq<seq<bv8>>, strict: bool, i: nat, position: nat, size: nat)
    requires i < |parts| && position <= |parts[i]| && Offset(parts, i) + position + size <= Size(parts)
    ensures var s := ReadFrom(parts, strict, Some(i), Some(position), size);
      At(parts, s.currentFile, s.file, Offset(parts, i) + position + size)
    decreases |parts| - i
  {
    var buf := ReadPart(parts[i], position, size);
    OffsetStep(parts, i);
    if |buf| < size && i + 1 < |parts| {
      ReadMoves(parts, strict, i + 1, 0, size - |buf|);
    }
  }

  /** `filename[0:3] == r'\\.'`: a name for a Windows device. */
  predicate DeviceName(name: string)
  {
    |name| >= 3 && name[..3] == "\\\\."
  }

  class FileReader {
    /** The parts in order; `size` of a part is the number of its bytes. */
    const parts: seq<seq<bv8>>
    /** True for dvrrecover/filereader.py, false for dvr-recover.py. */
    const strict: bool
    /** The index of the open part, or None. */
    var currentFile: Option<nat>
    /** The open part's file object, given by its read position, or None. */
    var file: Option<nat>

    predicate Valid()
      reads this
    {
      Consistent(parts, currentFile, file)
    }

    /** `__init__` with the sizes already known: no part open. */
    constructor (parts: seq<seq<bv8>>, strict: bool)
      ensures Valid() && this.parts == parts && this.strict == strict
      ensures currentFile == None && file == None
    {
      this.parts := parts;
      this.strict := strict;
      currentFile := None;
      file := None;
    }

    /** `get_size` of filereader.py: the loop over the parts. */
    method GetSize() returns (size: nat)
      ensures size == Size(parts)
    {
      size := 0;
      var i := 0;
      while i < |parts|
        invariant 0 <= i <= |parts| && size == Size(parts[..i])
      {
        assert parts[..i + 1][..i] == parts[..i];
        size := size + |parts[i]|;
        i := i + 1;
      }
      assert parts[..i] == parts;
    }

    /** `get_index` of filereader.py: the first part whose byte range holds `offset`. */
    method GetIndex(offset: int) returns (index: Option<nat>)
      ensures index == Index(parts, offset)
    {
      var i: nat := 0;
      var start: nat := 0;
      while i < |parts|
        invariant i <= |parts| && Index(parts, offset) == IndexFrom(parts, offset, i, start)
      {
        var end := start + |parts[i]|;
        if start <= offset < end {
          return Some(i);
        }
        start := end;
        i := i + 1;
      }
      return None;
    }

    /** `get_offset` of filereader.py: the sizes of the parts before `index` added up. */
    method GetOffset(index: int) returns (offset: nat)
      ensures offset == Offset(parts, index)
    {
      var i := 0;
      offset := 0;
      while i < |parts|
        invariant 0 <= i <= |parts| && (i <= index || i == 0) && offset == Offset(parts, i)
      {
        if i < index {
          OffsetStep(parts, i);
          offset := offset + |parts[i]|;
        } else {
          break;
        }
        i := i + 1;
      }
    }

    /** `close`: no part is open afterwards. */
    method Close()
      modifies this
      ensures Valid() && currentFile == None && file == None
    {
      currentFile := None;
      file := None;
    }

    /** `open(index)`: closes the open part, then opens part `index` at its start, or raises. */
    method Open(index: Option<nat>) returns (raised: Option<ReaderError>)
      modifies this
      ensures Valid()
      ensures raised.None? <==> index.Some? && index.value < |parts|
      ensures raised.None? ==> currentFile == index && file == Some(0)
      ensures raised.Some? ==> raised.value == IndexOutOfRange && currentFile == None && file == None
    {
      Close();
      if index.Some? && index.value < |parts| {
        file := Some(0);
        currentFile := index;
        return None;
      }
      return Some(IndexOutOfRange);
    }

    /**
     * `seek(offset)`: opens the part that holds `offset` unless it is already
     * open, and moves to the offset within it; raises outside the stream.
     */
    method Seek(offset: int) returns (raised: Option<ReaderError>)
      requires Valid()
      modifies this
      ensures Valid()
      ensures raised.None? <==> 0 <= offset < Size(parts)
      ensures raised.None? ==>
        currentFile == Index(parts, offset) && currentFile.Some?
        && file == Some(offset - Offset(parts, currentFile.value))
      ensures raised.Some? ==> raised.value == IndexOutOfRange && currentFile == None && file == None
    {
      var index := Index(parts, offset);
      IndexIsPart(parts, offset, if index.Some? then index.value else 0);
      if currentFile.None? || currentFile != index {
        raised := Open(index);
        if raised.Some? {
          return;
        }
      }
      file := Some(offset - Offset(parts, index.value));
      return None;
    }

    /** `is_eof`: the open part has been read to its end. */
    function IsEof(): bool
      requires Valid() && file.Some?
      reads this
    {
      file.value == |parts[currentFile.value]|
    }

    /** `next_file`: opens the next part, or closes the reader after the last one. */
    method NextFile()
      requires Valid() && currentFile.Some?
      modifies this
      ensures Valid()
      ensures old(currentFile.value) + 1 < |parts| ==> currentFile == Some(old(currentFile.value) + 1) && file == Some(0)
      ensures old(currentFile.value) + 1 >= |parts| ==> currentFile == None && file == None
    {
      if currentFile.value + 1 < |parts| {
        var _ := Open(Some(currentFile.value + 1));
      } else {
        Close();
      }
    }

    /** `read(size)`: the bytes of the stream from the read position on, across part ends. */
    method Read(size: nat) returns (result: Result<seq<bv8>, ReaderError>)
      requires Valid()
      modifies this
      ensures Valid()
      ensures ReadState(result, currentFile, file) == ReadFrom(parts, strict, old(currentFile), old(file), size)
      decreases Remaining(parts, currentFile)
    {
      if file.None? {
        return if strict then Err(NoFileOpen) else Ok([]);
      }
      var buf := ReadPart(parts[currentFile.value], file.value, size);
      file := Some(file.value + |buf|);
      var delta := size - |buf|;
      if delta != 0 {
        if IsEof() {
          NextFile();
          var rest := Read(delta);
          if rest.Err? {
            return rest;
          }
          return Ok(buf + rest.value);
        } else {
          return Err(IncompleteBuffer);
        }
      }
      return Ok(buf);
    }
  }

  /** `FileReader.__init__` of filereader.py: refuses Windows device names. */
  method Create(names: seq<string>, parts: seq<seq<bv8>>) returns (result: Result<FileReader, ReaderError>)
    requires |names| == |parts|
    ensures result.Err? <==> exists i :: 0 <= i < |names| && DeviceName(names[i])
    ensures result.Ok? ==>
      fresh(result.value) && result.value.Valid() && result.value.parts == parts
      && result.value.strict && result.value.currentFile == None
  {
    var i := 0;
    while i < |names|
      invariant 0 <= i <= |names| && forall j :: 0 <= j < i ==> !DeviceName(names[j])
    {
      if DeviceName(names[i]) {
        return Err(DeviceFile);
      }
      i := i + 1;
    }
    var reader := new FileReader(parts, true);
    return Ok(reader);
  }
}
