/**
 * The growable byte buffer of the C tool (buffer.c): a length and a block of
 * memory that is reallocated to exactly that length on every change.
 */
module ByteBuffer {

  /** `n` zero bytes. */
  function Zeros(n: nat): (z: seq<bv8>)
    ensures |z| == n && forall i :: 0 <= i < n ==> z[i] == 0
  {
    seq(n, i => 0)
  }

  /** The contents after `buffer_truncate(buffer, n)`: cut to `n` bytes, or padded with zero bytes up to `n`. */
  function Truncated(bytes: seq<bv8>, n: nat): seq<bv8>
  {
    if n <= |bytes| then bytes[..n] else bytes + Zeros(n - |bytes|)
  }

  /** `strlen`: the number of bytes before the first NUL. */
  function Strlen(s: seq<bv8>): (n: nat)
    requires 0 in s
    ensures n < |s| && s[n] == 0 && forall i :: 0 <= i < n ==> s[i] != 0
  {
    if s[0] == 0 then 0 else 1 + Strlen(s[1..])
  }

  /** A C string: `text` followed by its terminating NUL. */
  function CString(text: seq<bv8>): seq<bv8>
  {
    text + [0]
  }

  class Buffer {
    var length: nat
    var data: array?<bv8>

    /** `data` holds exactly `length` bytes; NULL only when the length is 0. */
    ghost predicate Valid()
      reads this
    {
      if data == null then length == 0 else data.Length == length
    }

    /** The bytes the buffer holds. */
    function Bytes(): (bytes: seq<bv8>)
      requires Valid()
      reads this, data
      ensures |bytes| == length
    {
      if data == null then [] else data[..]
    }

    /** `buffer_create`: length 0 and no memory. */
    constructor ()
      ensures Valid() && length == 0 && data == null && Bytes() == []
    {
      length := 0;
      data := null;
    }

    /**
     * `_buffer_resize`: `realloc` to `n` bytes. The first bytes, up to the
     * smaller of the two lengths, are kept; the new ones are indeterminate.
     */
    method Resize(n: nat)
      requires Valid()
      modifies this
      ensures Valid() && length == n && data != null && fresh(data)
      ensures var keep := if old(length) < n then old(length) else n;
        data[..keep] == old(Bytes())[..keep]
    {
      var memory := new bv8[n];
      var keep := if length < n then length else n;
      var i := 0;
      while i < keep
        invariant 0 <= i <= keep && data == old(data) && length == old(length)
        invariant memory[..i] == old(Bytes())[..i]
      {
        memory[i] := data[i];
        i := i + 1;
      }
      data := memory;
      length := n;
    }

    /** `memcpy(data + offset, bytes, |bytes|)`. */
    method CopyIn(offset: nat, bytes: seq<bv8>)
      requires Valid() && data != null && offset + |bytes| == length
      modifies data
      ensures data[..] == old(data[..offset]) + bytes
    {
      var i := 0;
      while i < |bytes|
        invariant 0 <= i <= |bytes|
        invariant data[..offset + i] == old(data[..offset]) + bytes[..i]
      {
        data[offset + i] := bytes[i];
        i := i + 1;
        assert data[..offset + i] == data[..offset + i - 1] + [bytes[i - 1]];
      }
      assert data[..] == data[..offset + |bytes|];
    }

    /** `buffer_copy`: a new buffer with its own memory holding the same bytes. */
    method Copy() returns (copy: Buffer)
      requires Valid()
      ensures fresh(copy) && copy.Valid() && copy.Bytes() == Bytes()
      ensures copy.data != null && fresh(copy.data)
    {
      copy := new Buffer();
      copy.Resize(length);
      copy.CopyIn(0, Bytes());
    }

    /**
     * `buffer_append`: the source's bytes are added at the end. The source
     * must be another buffer: on a buffer appended to itself the C code
     * resizes first, so the copy takes the doubled length and writes past
     * the end of the reallocated memory, between overlapping regions.
     */
    method Append(source: Buffer)
      requires Valid() && source.Valid() && source != this
      modifies this
      ensures Valid() && Bytes() == old(Bytes()) + source.Bytes()
      ensures source.length == old(source.length) && source.data == old(source.data)
    {
      var offset := length;
      var bytes := source.Bytes();
      Resize(length + source.length);
      CopyIn(offset, bytes);
    }

    /** `buffer_append_str`: the bytes of a C string before its NUL are added at the end. */
    method AppendStr(s: seq<bv8>)
      requires Valid() && 0 in s
      modifies this
      ensures Valid() && Bytes() == old(Bytes()) + s[..Strlen(s)]
    {
      var offset := length;
      var n := Strlen(s);
      Resize(length + n);
      CopyIn(offset, s[..n]);
    }

    /** `buffer_truncate`: resizes to `n` bytes and zero-fills the bytes beyond the old length. */
    method Truncate(n: nat)
      requires Valid()
      modifies this
      ensures Valid() && Bytes() == Truncated(old(Bytes()), n)
    {
      var oldLength := length;
      Resize(n);
      var i := oldLength;
      while i < length
        invariant Valid() && length == n && data != null && fresh(data)
        invariant oldLength <= n ==> oldLength <= i <= n && data[..i] == old(Bytes()) + Zeros(i - oldLength)
        invariant n < oldLength ==> data[..n] == old(Bytes())[..n]
      {
        data[i] := 0;
        i := i + 1;
      }
      if oldLength <= n {
        assert data[..] == data[..i];
      } else {
        assert data[..] == data[..n];
      }
    }

    /** `buffer_get_length`. */
    function GetLength(): (n: nat)
      requires Valid()
      reads this, data
      ensures n == |Bytes()|
    {
      length
    }
  }

  /** `buffer_concat`: a new buffer holding the bytes of the first buffer, then those of the second. */
  method Concat(buffer1: Buffer, buffer2: Buffer) returns (result: Buffer)
    requires buffer1.Valid() && buffer2.Valid()
    ensures fresh(result) && result.Valid() && result.Bytes() == buffer1.Bytes() + buffer2.Bytes()
  {
    result := buffer1.Copy();
    result.Append(buffer2);
  }

  /** Truncating to the old length undoes an append. */
  lemma TruncateUndoesAppend(bytes: seq<bv8>, more: seq<bv8>)
    ensures Truncated(bytes + more, |bytes|) == bytes
  {
    assert (bytes + more)[..|bytes|] == bytes;
  }

  /** Growing keeps the old bytes as a prefix and appends only zero bytes. */
  lemma TruncateGrows(bytes: seq<bv8>, n: nat)
    requires |bytes| <= n
    ensures var t := Truncated(bytes, n);
      |t| == n && t[..|bytes|] == bytes && forall i :: |bytes| <= i < n ==> t[i] == 0
  {
    assert Truncated(bytes, n)[..|bytes|] == bytes;
  }

  /** Two truncations in a row are the truncation to the smaller length, padded back up with zeros. */
  lemma {:induction false} TruncateTwice(bytes: seq<bv8>, m: nat, n: nat)
    ensures Truncated(Truncated(bytes, m), n)
      == Truncated(Truncated(bytes, if m < n then m else n), n)
  {
    if m < n {
    } else if n <= |bytes| {
      assert Truncated(bytes, m)[..n] == bytes[..n];
    } else {
      assert Truncated(bytes, m)[..n] == bytes + Zeros(n - |bytes|);
    }
  }

  /** A C string's length is the length of the text before its NUL. */
  lemma {:induction false} StrlenOfCString(text: seq<bv8>)
    requires 0 !in text
    ensures Strlen(CString(text)) == |text| && CString(text)[..|text|] == text
  {
    if text != [] {
      assert CString(text)[1..] == CString(text[1..]);
      StrlenOfCString(text[1..]);
    }
  }

  /** "dummy" in ASCII. */
  const Dummy: seq<bv8> := [0x64, 0x75, 0x6D, 0x6D, 0x79]

  /** "dummy string" in ASCII. */
  const DummyString: seq<bv8> := Dummy + [0x20, 0x73, 0x74, 0x72, 0x69, 0x6E, 0x67]

  /** The first half of the buffer test: append "dummy string", truncate to 5 and back to 12 bytes. */
  method TestRegrow() returns (buffer1: Buffer, appended: seq<bv8>, shrunk: seq<bv8>, regrown: seq<bv8>)
    ensures fresh(buffer1) && buffer1.Valid() && buffer1.Bytes() == regrown
    ensures appended == DummyString && shrunk == Dummy && regrown == Dummy + Zeros(7)
  {
    buffer1 := new Buffer();
    StrlenOfCString(DummyString);
    buffer1.AppendStr(CString(DummyString));
    appended := buffer1.Bytes();
    assert appended == DummyString;
    buffer1.Truncate(5);
    shrunk := buffer1.Bytes();
    assert DummyString[..5] == Dummy;
    buffer1.Truncate(12);
    regrown := buffer1.Bytes();
  }

  /**
   * The buffer test: append "dummy string", truncate to 5 and back to 12
   * bytes, copy, concatenate, then truncate to 0 and grow to 1024 bytes.
   */
  method TestSequence() returns (appended: seq<bv8>, shrunk: seq<bv8>, regrown: seq<bv8>, copied: seq<bv8>,
                                  concatenated: seq<bv8>, cleared: seq<bv8>)
    ensures appended == DummyString && shrunk == Dummy
    ensures regrown == copied == Dummy + Zeros(7)
    ensures concatenated == Dummy + Zeros(7) + Dummy + Zeros(7)
    ensures cleared == Zeros(1024)
  {
    var buffer1;
    buffer1, appended, shrunk, regrown := TestRegrow();
    var buffer2 := buffer1.Copy();
    copied := buffer2.Bytes();
    var buffer3 := Concat(buffer1, buffer2);
    concatenated := buffer3.Bytes();
    assert concatenated == Dummy + Zeros(7) + Dummy + Zeros(7);
    buffer3.Truncate(0);
    buffer3.Truncate(1024);
    cleared := buffer3.Bytes();
    assert cleared == [] + Zeros(1024);
  }
}
