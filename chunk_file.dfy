/**
 * The chunk list file of dvr-recover.py: one line per chunk,
 * `block_start;block_size;clock_start;clock_end;concat` in decimal with
 * `concat` written as 1 or 0, each line ended by a newline.
 */
module ChunkFile {
  import opened Wrappers
  import Text

  /** `Chunk` of dvr-recover.py. */
  datatype Chunk = Chunk(blockStart: int, blockSize: int, clockStart: int, clockEnd: int, concat: bool)

  /** What `load_chunk_list` raises on a line it cannot read. */
  datatype ListError =
    | MissingField  // IndexError: fewer than five fields
    | NotANumber    // ValueError: a field `int()` does not accept

  const Newline: char := '\n'
  const Separator: char := ';'

  /** `int(chunk.concat)`. */
  function Flag(b: bool): int
  {
    if b then 1 else 0
  }

  /** The five numbers `save_chunk_list` writes for a chunk. */
  function Numbers(c: Chunk): seq<int>
  {
    [c.blockStart, c.blockSize, c.clockStart, c.clockEnd, Flag(c.concat)]
  }

  /** The five fields `save_chunk_list` writes for a chunk: its numbers in decimal. */
  function Fields(c: Chunk): (f: seq<string>)
    ensures |f| == 5
  {
    seq(5, k requires 0 <= k < 5 => Text.Show(Numbers(c)[k]))
  }

  /** `'%i;%i;%i;%i;%i\n' % (...)`. */
  function Line(c: Chunk): string
  {
    Text.Join(Fields(c), Separator) + [Newline]
  }

  /** Lines written one after another. */
  function Unlines(lines: seq<string>): string
  {
    if lines == [] then "" else Unlines(lines[..|lines| - 1]) + lines[|lines| - 1]
  }

  /** The line of each chunk, in order. */
  function Lines(chunks: seq<Chunk>): (lines: seq<string>)
    ensures |lines| == |chunks|
  {
    seq(|chunks|, i requires 0 <= i < |chunks| => Line(chunks[i]))
  }

  /** The file `save_chunk_list` writes: the lines of the chunks in order. */
  function Format(chunks: seq<Chunk>): string
  {
    Unlines(Lines(chunks))
  }

  /** `for line in f`: the lines of a text, each with its newline; the last may have none. */
  function FileLines(text: string): (lines: seq<string>)
    ensures forall i :: 0 <= i < |lines| ==> |lines[i]| >= 1
    decreases |text|
  {
    if text == [] then []
    else
      match Text.Find(text, Newline)
      case None => [text]
      case Some(i) => [text[..i + 1]] + FileLines(text[i + 1..])
  }

  /** `line[:-1]`: the line without its last character. */
  function DropLast(line: string): string
  {
    if line == [] then line else line[..|line| - 1]
  }

  /** `int(result[k])`: a missing field raises IndexError, a malformed one ValueError. */
  function Field(fields: seq<string>, k: nat): (r: Result<int, ListError>)
    ensures r == Err(MissingField) <==> k >= |fields|
    ensures r.Ok? <==> k < |fields| && Text.ParseInt(fields[k]).Some?
    ensures r.Ok? ==> Text.ParseInt(fields[k]) == Some(r.value)
  {
    if k >= |fields| then Err(MissingField)
    else match Text.ParseInt(fields[k])
      case None => Err(NotANumber)
      case Some(v) => Ok(v)
  }

  /**
   * One line of the file read back: `line[:-1].split(';')`, then `int()` of
   * the first five fields in order, the first that fails raising.
   */
  function ParseLine(line: string): (r: Result<Chunk, ListError>)
  {
    var fields := Text.Split(DropLast(line), Separator);
    var v0 :- Field(fields, 0);
    var v1 :- Field(fields, 1);
    var v2 :- Field(fields, 2);
    var v3 :- Field(fields, 3);
    var v4 :- Field(fields, 4);
    Ok(Chunk(v0, v1, v2, v3, v4 == 1))
  }

  /** The chunks of the lines, or the error of the first line that cannot be read. */
  function ParseLines(lines: seq<string>): Result<seq<Chunk>, ListError>
  {
    if lines == [] then Ok([])
    else
      match ParseLines(lines[..|lines| - 1])
      case Err(e) => Err(e)
      case Ok(chunks) =>
        match ParseLine(lines[|lines| - 1])
        case Err(e) => Err(e)
        case Ok(c) => Ok(chunks + [c])
  }

  /** What `load_chunk_list` reads from a file. */
  function Parse(text: string): Result<seq<Chunk>, ListError>
  {
    ParseLines(FileLines(text))
  }

  // ---------------------------------------------------------------------------
  // Reading back what was written
  // ---------------------------------------------------------------------------

  /** `Find` returns the first occurrence. */
  lemma FindFirst(s: string, sep: char, i: nat)
    requires i < |s| && s[i] == sep && sep !in s[..i]
    ensures Text.Find(s, sep) == Some(i)
  {
    assert s[i] in s;
  }

  /** The first newline of a text is also the first of the text with more appended. */
  lemma FindAppend(x: string, y: string, i: nat)
    requires Text.Find(x, Newline) == Some(i)
    ensures Text.Find(x + y, Newline) == Some(i)
  {
    assert (x + y)[..i] == x[..i];
    FindFirst(x + y, Newline, i);
  }

  /** The lines of a text are its first line and the lines after it. */
  lemma FileLinesStep(t: string, i: nat)
    requires Text.Find(t, Newline) == Some(i)
    ensures FileLines(t) == [t[..i + 1]] + FileLines(t[i + 1..])
  {
  }

  /** The lines of two texts, the first ending with a newline, are the lines of each. */
  lemma {:induction false} FileLinesAppend(x: string, y: string)
    requires x == [] || x[|x| - 1] == Newline
    ensures FileLines(x + y) == FileLines(x) + FileLines(y)
    decreases |x|
  {
    if x == [] {
      assert x + y == y;
    } else {
      assert x[|x| - 1] in x;
      var i := Text.Find(x, Newline).value;
      var a, rest := x[..i + 1], x[i + 1..];
      assert FileLines(x + y) == [a] + FileLines(rest + y) by {
        FindAppend(x, y, i);
        FileLinesStep(x + y, i);
        assert (x + y)[..i + 1] == a;
        assert (x + y)[i + 1..] == rest + y;
      }
      assert FileLines(x) == [a] + FileLines(rest) by {
        FileLinesStep(x, i);
      }
      assert FileLines(rest + y) == FileLines(rest) + FileLines(y) by {
        assert rest == [] || rest[|rest| - 1] == Newline;
        FileLinesAppend(rest, y);
      }
      ConsAppend(a, FileLines(rest), FileLines(y));
    }
  }

  /** A non-empty sequence is its front and its last element. */
  lemma SnocSlice<T>(s: seq<T>)
    requires |s| > 0
    ensures s[..|s| - 1] + [s[|s| - 1]] == s
  {
  }

  lemma ConsAppend<T>(a: T, p: seq<T>, q: seq<T>)
    ensures [a] + (p + q) == ([a] + p) + q
  {
  }

  /** Joined pieces without a character, joined by another, hold none of it. */
  lemma {:induction false} JoinHasNo(names: seq<string>, sep: char, c: char)
    requires c != sep && forall i :: 0 <= i < |names| ==> c !in names[i]
    ensures c !in Text.Join(names, sep)
  {
    if |names| > 1 {
      JoinHasNo(names[1..], sep, c);
    }
  }

  /** No field holds a separator or a newline. */
  lemma FieldsClean(c: Chunk)
    ensures forall i :: 0 <= i < 5 ==> Separator !in Fields(c)[i] && Newline !in Fields(c)[i]
  {
    forall i | 0 <= i < 5
      ensures Separator !in Fields(c)[i] && Newline !in Fields(c)[i]
    {
      Text.ShowHasNo(Numbers(c)[i], Separator);
      Text.ShowHasNo(Numbers(c)[i], Newline);
    }
  }

  /** A written line is one line of the file. */
  lemma LineIsOneLine(c: Chunk)
    ensures OneLine(Line(c))
  {
    var body := Text.Join(Fields(c), Separator);
    FieldsClean(c);
    JoinHasNo(Fields(c), Separator, Newline);
    assert Line(c)[..|body|] == body;
  }

  /** A written line reads back as the chunk it was written from. */
  lemma ParseLineOfLine(c: Chunk)
    ensures ParseLine(Line(c)) == Ok(c)
  {
    SplitLine(c);
    FieldsParse(c);
    ParseFields(Line(c), Fields(c), c);
  }

  /** A written line splits back into its fields. */
  lemma SplitLine(c: Chunk)
    ensures Text.Split(DropLast(Line(c)), Separator) == Fields(c)
  {
    assert DropLast(Line(c)) == Text.Join(Fields(c), Separator);
    FieldsClean(c);
    Text.SplitJoin(Fields(c), Separator);
  }

  /** Fields that `int()` reads as the given numbers, one for one. */
  predicate ReadsAs(f: seq<string>, ns: seq<int>)
  {
    |f| == |ns| && forall k :: 0 <= k < |f| ==> Text.ParseInt(f[k]) == Some(ns[k])
  }

  /** Each written field reads back as its number. */
  lemma FieldsParse(c: Chunk)
    ensures ReadsAs(Fields(c), Numbers(c))
  {
    forall k | 0 <= k < 5
      ensures Text.ParseInt(Fields(c)[k]) == Some(Numbers(c)[k])
    {
      Text.ParseShow(Numbers(c)[k]);
    }
  }

  /** A line whose five fields read as the numbers of a chunk reads as that chunk. */
  lemma ParseFields(line: string, f: seq<string>, c: Chunk)
    requires Text.Split(DropLast(line), Separator) == f && ReadsAs(f, Numbers(c))
    ensures ParseLine(line) == Ok(c)
  {
    assert Text.ParseInt(f[0]) == Some(c.blockStart) && Text.ParseInt(f[1]) == Some(c.blockSize);
    assert Text.ParseInt(f[2]) == Some(c.clockStart) && Text.ParseInt(f[3]) == Some(c.clockEnd);
    assert Text.ParseInt(f[4]) == Some(Flag(c.concat));
  }

  /** A line that ends with its only newline. */
  predicate OneLine(l: string)
  {
    |l| >= 1 && l[|l| - 1] == Newline && Newline !in l[..|l| - 1]
  }

  /** Such a line is read as itself. */
  lemma OneLineLines(l: string)
    requires OneLine(l)
    ensures FileLines(l) == [l]
  {
    var n := |l| - 1;
    FindFirst(l, Newline, n);
    FileLinesStep(l, n);
    assert l[..n + 1] == l;
    assert l[n + 1..] == [];
  }

  /** Lines that each end with their only newline are the lines of the text they make up. */
  lemma {:induction false} FileLinesOfUnlines(lines: seq<string>)
    requires forall i :: 0 <= i < |lines| ==> OneLine(lines[i])
    ensures FileLines(Unlines(lines)) == lines
  {
    if lines != [] {
      var n := |lines| - 1;
      var init, last := lines[..n], lines[n];
      assert FileLines(Unlines(init)) == init by {
        FileLinesOfUnlines(init);
      }
      UnlinesEnds(init);
      assert OneLine(last);
      FileLinesSnoc(Unlines(init), init, last);
      SnocSlice(lines);
    }
  }

  /** Text made of whole lines is empty or ends with a newline. */
  lemma UnlinesEnds(lines: seq<string>)
    requires forall i :: 0 <= i < |lines| ==> OneLine(lines[i])
    ensures var x := Unlines(lines); x == [] || x[|x| - 1] == Newline
  {
    if lines != [] {
      assert OneLine(lines[|lines| - 1]);
    }
  }

  /** One more whole line after text that ends with a newline is one more line of it. */
  lemma FileLinesSnoc(x: string, init: seq<string>, last: string)
    requires FileLines(x) == init && (x == [] || x[|x| - 1] == Newline) && OneLine(last)
    ensures FileLines(x + last) == init + [last]
  {
    OneLineLines(last);
    FileLinesAppend(x, last);
  }

  /** Writing one more chunk appends its line. */
  lemma FormatSnoc(chunks: seq<Chunk>, c: Chunk)
    ensures Format(chunks + [c]) == Format(chunks) + Line(c)
  {
    assert Lines(chunks + [c])[..|chunks|] == Lines(chunks);
  }

  /** Lines each of which reads back as a chunk read back as those chunks. */
  lemma {:induction false} ParseLinesOfLines(lines: seq<string>, chunks: seq<Chunk>)
    requires |lines| == |chunks| && forall i :: 0 <= i < |chunks| ==> ParseLine(lines[i]) == Ok(chunks[i])
    ensures ParseLines(lines) == Ok(chunks)
  {
    if lines != [] {
      var n := |lines| - 1;
      assert ParseLines(lines[..n]) == Ok(chunks[..n]) by {
        ParseLinesOfLines(lines[..n], chunks[..n]);
      }
      ParseLinesSnoc(lines[..n], chunks[..n], lines[n], chunks[n]);
      SnocSlice(lines);
      SnocSlice(chunks);
    }
  }

  /** One more line that reads back as a chunk adds that chunk. */
  lemma ParseLinesSnoc(init: seq<string>, chunks: seq<Chunk>, last: string, c: Chunk)
    requires ParseLines(init) == Ok(chunks) && ParseLine(last) == Ok(c)
    ensures ParseLines(init + [last]) == Ok(chunks + [c])
  {
    assert (init + [last])[..|init|] == init;
  }

  /** Once a line fails to read, the whole file fails with that line's error. */
  lemma {:induction false} ParseLinesStops(lines: seq<string>, k: nat)
    requires k <= |lines| && ParseLines(lines[..k]).Err?
    ensures ParseLines(lines) == ParseLines(lines[..k])
    decreases |lines|
  {
    if k < |lines| {
      var n := |lines| - 1;
      assert lines[..n][..k] == lines[..k];
      ParseLinesStops(lines[..n], k);
    } else {
      assert lines[..k] == lines;
    }
  }

  /** A line with fewer than five fields, all of them numbers, raises IndexError. */
  lemma ShortLineMissesField(line: string)
    requires var fields := Text.Split(DropLast(line), Separator);
      |fields| < 5 && forall k :: 0 <= k < |fields| ==> Text.ParseInt(fields[k]).Some?
    ensures ParseLine(line) == Err(MissingField)
  {
  }

  /**
   * `load_chunk_list` after `save_chunk_list` gives back every chunk, in
   * order, with the same five fields.
   */
  lemma LoadAfterSave(chunks: seq<Chunk>)
    ensures Parse(Format(chunks)) == Ok(chunks)
  {
    var lines := Lines(chunks);
    forall i | 0 <= i < |chunks|
      ensures OneLine(lines[i])
      ensures ParseLine(lines[i]) == Ok(chunks[i])
    {
      LineIsOneLine(chunks[i]);
      ParseLineOfLine(chunks[i]);
    }
    FileLinesOfUnlines(lines);
    ParseLinesOfLines(lines, chunks);
  }
}
