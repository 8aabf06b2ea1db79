# dvr-recover in Dafny

dvr-recover rescues MPEG-2 Program Stream recordings from the raw disk image
of a digital video recorder. It reads the image (split over several files) as
one stream of fixed-size blocks and decodes the pack header at the start of
each block. A pack header is the start code `00 00 01 BA` plus marker bits.
Its 33-bit system clock reference (SCR) is described in ISO/IEC 13818-1,
section 2.5.3.3. The scanner cuts the stream into *chunks* (in C: *fragments*),
runs of blocks whose clock rises by at most a gap. The chunks are saved to a
chunk list or an SQLite table, then sorted and linked into chains of likely
continuations, and each chain is exported as one file.

The model covers every snapshot of that pipeline in the repository.

- **Python script** (`dvr-recover.py`):
  - the multi-file reader;
  - the pack-header decoder;
  - the chunk scanner;
  - the chunk-list file;
  - the sort/link step and `reset`;
  - the export.
- **Python package** (`dvrrecover/`):
  - the reader;
  - the two resumable scanners, `harddisk.py` and `chunkfactory.py`, with their checkpoint in the state table;
  - the database manager (chunk, state and setting tables as maps);
  - the configuration manager.
- **C library** (`mpegrecover/C/src`):
  - 5-byte timestamps;
  - `analyze_stream` and `merge_fragments`;
  - the doubly linked list;
  - the growable byte buffer.
- **Java classes**: `MpegTimestamp` and `MpegFragment`.

Each file keeps the source's form:

- Pure computations are functions, with lemmas about them.
- Objects whose fields change are classes. Their methods state the new state in terms of specification functions, and lemmas prove what the source promises about those functions.
- The scanners share one specification of a scan step (module `ChunkScan`). Each scanner's loop is proved to compute it.
- The C `analyze_stream` has its own specification (module `Analysis`), with the cut test as a parameter. With `mpeg_timestamp_diff` as written, the scan is proved to give the fragments of the C code. With the borrow carried through, it is proved to cut exactly where the clock jumps.

The variants are modelled as written, not merged:

- **Chunk size.** The Python scanners record a closed chunk's size as `current - 1 - block_start`. C records `block_current - block_start`.
- **Clock jump.** On a jump, Python closes the chunk without opening one at that block, while C reopens at the current block.
- **`chunkfactory.py`.** It has no minimum chunk size, and its decoder drops SCR bit 32.
- **Reading with no part open.** The script returns an empty string, and the package's reader raises. One `FileReader` class covers both, chosen by its `strict` flag.
- **Decoders.** `harddisk.py`'s bit extraction cannot run (see Findings), so its scanner uses the decoder of `dvr-recover.py`.
- **Timestamp difference.** The C analysis is `AnalyzeStream` with `AsWritten`, which uses `mpeg_timestamp_diff` as written. `Corrected` is the intended difference of the Findings.

The checkpoint timer is a parameter: a boolean per block saying whether it fires.

## Model

| member | source | states |
|---|---|---|
| PackHeader.MpegHeader | dvr-recover.py:520-601 | a clock is returned exactly when the block starts with `00 00 01 BA` and all marker bits are as required; the clock is below 2^33 |
| PackHeader.ScrLocationsDistinct | dvr-recover.py:562-596 | the 33 table entries name 33 different bits, none of them a marker bit |
| PackHeader.MarkersByBits | dvr-recover.py:545-560 | the marker test holds iff bits 7-6 of byte 4 are `01` and bit 2 of bytes 4, 6 and 8 is set |
| PackHeader.ClockFields | dvr-recover.py:562-601 | the sum of the 33 table bits equals the SCR fields of ISO/IEC 13818-1 section 2.5.3.3 (byte 8 bits 3-7, byte 7, byte 6 around its marker, byte 5, byte 4 around its marker) weighted by their powers of two |
| PackHeader.EncodedIsPackHeader | dvr-recover.py:545-596 | the pack header built for a clock passes the start-code and marker test and carries bit i of the clock at table entry i |
| PackHeader.HeaderRoundTrip | dvr-recover.py:520-601 | decoding the pack header built for any clock below 2^33 gives that clock back |
| PackHeader.HeaderPrefix | dvr-recover.py:545-601 | the decoder reads only the first nine bytes of a block |
| PackHeader.MarkerFlipInvalidates | mpegrecover/C/src/mpeg.c:29-52 | flipping any marker bit of a valid pack header makes it invalid |
| PackHeader.StartCodeChangeInvalidates | mpegrecover/C/src/mpeg.c:29-40 | changing any byte of the start code of a valid pack header makes it invalid |
| PackHeader.FactoryMpegHeader | dvrrecover/chunkfactory.py:101-147 | a clock is returned exactly when the start code and markers are valid, and it is below 2^32 |
| PackHeader.FactoryDropsTopBit | dvrrecover/chunkfactory.py:138-147 | the package decoder's clock is the full clock modulo 2^32; the full clock adds bit 5 of byte 4 times 2^32 |
| PackHeader.FactoryIgnoresBit32 | dvrrecover/chunkfactory.py:138-147 | flipping bit 5 of byte 4 never changes the package decoder's result |
| PackHeader.TestVector1 | mpegrecover/C/tests/mpeg.c:29-44 | the first test header decodes to 0x673F53 |
| PackHeader.TestVector2 | mpegrecover/C/tests/mpeg.c:45-58 | the second test header decodes to 0x11C6005F0 |
| Text.SplitJoin | dvrrecover/config.py:55-70 | splitting a join of names that do not contain the separator gives the names back |
| Text.JoinSplit | dvrrecover/config.py:55-70 | joining the pieces of a split gives the string back |
| Text.DigitsValueOfDigits | dvr-recover.py:389-398 | the decimal digits written by `%i` for a natural number read back as that number |
| Text.ParseShow | dvr-recover.py:372-386 | `int()` of the `%i` text of any integer, negative ones included, is that integer |
| MpegTime.ValueOfToBytes | mpegrecover/C/src/mpeg.c:109-123 | n big-endian bytes of a value hold the value modulo 256^n |
| MpegTime.ToBytesOfValue | mpegrecover/C/src/mpeg.c:109-123 | bytes are the big-endian bytes of their own value |
| MpegTime.CompareIsValueOrder | mpegrecover/C/src/mpeg.c:208-211 | the byte comparison is negative, positive or zero exactly when the big-endian values are less, greater or the bytes equal |
| MpegTime.CompareAntisymmetric | mpegrecover/C/tests/mpeg.c:63-66 | swapping the arguments negates the comparison |
| MpegTime.Create | mpegrecover/C/src/mpeg.c:84-91 | a new timestamp of five zero bytes |
| MpegTime.Copy | mpegrecover/C/src/mpeg.c:100-106 | a new array with the same five bytes |
| MpegTime.FromInt | mpegrecover/C/src/mpeg.c:109-123 | for an unsigned 32-bit value, a new timestamp holding its five big-endian bytes, so byte 0 is zero |
| MpegTime.Extract | mpegrecover/C/src/mpeg.c:126-158 | NULL exactly when the block is not a valid pack header; otherwise a new timestamp whose big-endian value is the decoded 33-bit clock |
| MpegTime.ExtractTestVector1 | mpegrecover/C/tests/mpeg.c:29-44 | the first test block extracts to `00 00 67 3F 53` |
| MpegTime.ExtractTestVector2 | mpegrecover/C/tests/mpeg.c:45-58 | the second test block extracts to `01 1C 60 05 F0` |
| MpegTime.Diff | mpegrecover/C/src/mpeg.c:161-205 | the loop fills a new array with the as-written borrow subtraction of the smaller timestamp from the larger |
| MpegTime.DiffSymmetric | mpegrecover/C/src/mpeg.c:167-174 | the difference does not depend on the order of the arguments |
| MpegTime.DiffExactWithoutBorrow | mpegrecover/C/src/mpeg.c:178-202 | when one timestamp is digit by digit at least the other, the as-written difference is the distance of the values |
| MpegTime.DiffTestVectors | mpegrecover/C/tests/mpeg.c:67-108 | the test pairs give `01 1B F8 C6 9D` and `00 01 FF AB AC` |
| MpegTime.DiffAsWrittenCounterexample | mpegrecover/C/src/mpeg.c:178-202 | for `00 00 01 01 00` and `00 00 00 01 01` the as-written difference is `00 00 01 FF FF` (0x1FFFF) where the distance is 0xFFFF |
| MpegTime.ExactDiff | mpegrecover/C/src/mpeg.c:161-205 | the corrected difference: five bytes whose value is the distance of the two timestamps |
| MpegTime.SubtractDigitsExact | mpegrecover/C/src/mpeg.c:178-202 | schoolbook subtraction with a carried borrow gives the bytes of big minus small |
| MpegTime.SubtractInto | mpegrecover/C/src/mpeg.c:178-202 | the corrected borrow loop fills a new array with the digit-by-digit difference |
| MpegTime.DiffExact | mpegrecover/C/src/mpeg.c:161-205 | the corrected method returns the bytes of the distance of the two timestamps |
| Analysis.Step | mpegrecover/C/src/analysis.c:61-136 | after a block, the previous clock is that block's clock (or none), ready for the next block |
| Analysis.StepInv | mpegrecover/C/src/analysis.c:64-136 | one block keeps the invariant: closed fragments are maximal continuous runs in order, and the open one is continuous up to this block |
| Analysis.RunInv | mpegrecover/C/src/analysis.c:59-137 | the invariant holds after any number of blocks |
| Analysis.SegmentShape | mpegrecover/C/src/analysis.c:59-148 | for any cut relation, including both subtractions, every fragment is a maximal run of header blocks with no cut between neighbours; fragments are in increasing, non-overlapping block order; every header block lies in one |
| Analysis.HeaderClockInRange | mpegrecover/C/src/analysis.c:61-62 | a decoded clock fits the five-byte timestamp range |
| Analysis.Blocks | mpegrecover/C/src/analysis.c:61 | the stream cut into whole blocks of the block size |
| Analysis.BlocksLength | mpegrecover/C/src/analysis.c:61 | the loop sees stream length divided by block size blocks, so a trailing partial block is not analysed |
| Analysis.BlockAt | mpegrecover/C/src/analysis.c:61 | block b is the bytes from b times the block size, for one block size |
| Analysis.Clocks | mpegrecover/C/src/analysis.c:61-62 | the clock of each whole block is the decoded pack header of that block |
| Analysis.ClockBytes | mpegrecover/C/src/mpeg.c:126-158 | a clock below 2^33 is recovered from its five bytes |
| Analysis.ByteCutIsJump | mpegrecover/C/src/analysis.c:76-98 | with the corrected subtraction, the cut test on 33-bit clocks holds iff the clock went down or rose by more than the gap |
| Analysis.ByteCutAsWrittenCounterexample | mpegrecover/C/src/analysis.c:93-95 | clocks 0x101 then 0x10100 with gap 90000 are 65535 apart and no jump, yet the test as written cuts there |
| Analysis.CloseHolds | mpegrecover/C/src/analysis.c:109-114 | closing at block b appends the open fragment with size b minus its start and end time the previous block's timestamp |
| Analysis.EndFragment | mpegrecover/C/src/analysis.c:126-130 | the list gains exactly that fragment at its end, with size and end time set |
| Analysis.EndOpen | mpegrecover/C/src/analysis.c:143-148 | after the loop the list is the fragments of the complete segmentation |
| Analysis.IsCut | mpegrecover/C/src/analysis.c:81-97 | cut iff the current timestamp is below the previous one or their difference exceeds the maximal gap; with `AsWritten` the difference is `mpeg_timestamp_diff` as written |
| Analysis.StartsFragment | mpegrecover/C/src/analysis.c:76-98 | a new fragment starts iff none is open or the cut test fires on the previous and current clocks |
| Analysis.ScanHeader | mpegrecover/C/src/analysis.c:64-120 | a header block advances the list and the open fragment by one step of the scan with the given subtraction |
| Analysis.ScanBlock | mpegrecover/C/src/analysis.c:62-136 | any block advances the list, open fragment and previous time by one step of the scan with the given subtraction |
| Analysis.ScanStream | mpegrecover/C/src/analysis.c:59-148 | the loop leaves in the list exactly the fragments of the scan of the stream's clocks |
| Analysis.AnalyzeStream | mpegrecover/C/src/analysis.c:43-174 | a new list holding the fragments of the stream's whole blocks; with `AsWritten` these are the C code's fragments, cut where `mpeg_timestamp_diff` as written exceeds the gap |
| Analysis.MergeFragments | mpegrecover/C/src/analysis.c:177-215 | the result is always an empty new list, and the original list and its contents are unchanged |
| Analysis.ReadsEnd | mpegrecover/C/src/analysis.c:61 | with a positive block size, the read loop stops after one turn per whole block, leaving the stream length modulo the block size |
| Analysis.ZeroBlockSizeNeverEnds | mpegrecover/C/src/analysis.c:61 | with block size 0, any number of turns of the read loop leaves the stream as it was, so the loop never ends |
| Analysis.ShortBlockOverRead | mpegrecover/C/src/mpeg.c:29-46 | a four-byte block holding the start code makes `mpeg_is_valid` read byte 4, past the block |
| Analysis.AnalyzeChecked | mpegrecover/C/src/analysis.c:25-61 | NULL iff the block size is shorter than a pack header; otherwise a new list holding the segmentation of the stream's whole blocks |
| AnalysisTest.TestFirstFragment | mpegrecover/C/tests/analysis.c:36-66 | the first five header blocks form fragment {0,5,5000,7000}, closed by the headerless blocks |
| AnalysisTest.TestSecondFragment | mpegrecover/C/tests/analysis.c:36-66 | blocks 10 to 14 make the second fragment open at 8000 with clock 12000 |
| AnalysisTest.TestThirdFragment | mpegrecover/C/tests/analysis.c:36-66 | the jump to 500000 closes {10,5,8000,12000} and the third fragment runs to clock 500019 |
| AnalysisTest.TestSecondGap | mpegrecover/C/tests/analysis.c:36-66 | the second headerless run closes {15,20,500000,500019} |
| AnalysisTest.CountingStep | mpegrecover/C/tests/analysis.c:36-66 | clocks 500000 + i and 500001 + i differ in the last byte only, so the C test does not cut between them |
| AnalysisTest.CutOnBytes | mpegrecover/C/tests/analysis.c:36-66 | the cut decision between two clocks is the C test on their five bytes and the bytes of the gap 90000 |
| AnalysisTest.TestSegments | mpegrecover/C/tests/analysis.c:141-161 | with the C code's subtraction, the test stream yields exactly {0,5,5000,7000}, {10,5,8000,12000}, {15,20,500000,500019} and {48,2,1000000,1090000}; a step of exactly 90000 does not cut |
| AnalysisTest.BlocksOfFlatten | mpegrecover/C/tests/analysis.c:28-66 | blocks of one size written one after the other are read back as the same blocks |
| AnalysisTest.TestStreamClocks | mpegrecover/C/tests/analysis.c:28-66 | the clocks of the test stream are those of the test layout |
| AnalysisTest.AnalyzeTestStream | mpegrecover/C/tests/analysis.c:141-161 | analysing the test stream with the C code's subtraction returns the four expected fragments |
| DoublyLinkedList.Item.constructor | mpegrecover/C/src/dllist.c:29-39 | a detached item holding the data and its list |
| DoublyLinkedList.DList.constructor | mpegrecover/C/src/dllist.c:55-63 | an empty list with first and last NULL |
| DoublyLinkedList.DList.Append | mpegrecover/C/src/dllist.c:123-145 | the data is added at the end; the new item is last, and also first if the list was empty |
| DoublyLinkedList.DList.Prepend | mpegrecover/C/src/dllist.c:147-162 | the data is added at the front; the new item is first, and also last if the list was empty |
| DoublyLinkedList.DList.InsertBefore | mpegrecover/C/src/dllist.c:164-181 | the data is placed immediately before the item and every other element keeps its place |
| DoublyLinkedList.DList.InsertAfter | mpegrecover/C/src/dllist.c:183-200 | the data is placed immediately after the item and every other element keeps its place |
| DoublyLinkedList.DList.Remove | mpegrecover/C/src/dllist.c:202-215 | exactly that item is removed, and the other items and their data keep their order |
| DoublyLinkedList.DList.Clear | mpegrecover/C/src/dllist.c:218-228 | the list is left empty |
| DoublyLinkedList.DList.SetData | mpegrecover/C/src/dllist.c:105-108 | only that item's data changes |
| DoublyLinkedList.DList.Walk | mpegrecover/C/tests/dllist.c:24-36 | walking from first along next visits the contents in order |
| DoublyLinkedList.DList.Copy | mpegrecover/C/src/dllist.c:73-84 | a new list of new items with the same data in the same order; the original is unchanged |
| DoublyLinkedList.FillList | mpegrecover/C/tests/dllist.c:50-57 | appending 0 to 4 gives 0,1,2,3,4 |
| DoublyLinkedList.EditFront | mpegrecover/C/tests/dllist.c:59-61 | the front edits give 6,5,0,1,2,3,4 |
| DoublyLinkedList.EditMiddle | mpegrecover/C/tests/dllist.c:62-64 | the middle edits give 6,7,5,0,1,2,3,4,8 |
| DoublyLinkedList.EditBack | mpegrecover/C/tests/dllist.c:65-68 | the back edits give 6,7,5,0,1,2,3,8,9 |
| DoublyLinkedList.TestSequence | mpegrecover/C/tests/dllist.c:50-72 | the whole test sequence yields 6,7,5,0,1,2,3,8,9 with first 6 and last 9 |
| ByteBuffer.Buffer.constructor | mpegrecover/C/src/buffer.c:43-50 | length 0 and data NULL |
| ByteBuffer.Buffer.Resize | mpegrecover/C/src/buffer.c:32-36 | the new storage has the new length and keeps the old bytes that fit |
| ByteBuffer.Buffer.Copy | mpegrecover/C/src/buffer.c:61-70 | a new buffer with its own storage and the same bytes |
| ByteBuffer.Buffer.Append | mpegrecover/C/src/buffer.c:73-79 | the destination becomes its old bytes followed by the source's bytes, and the source is unchanged |
| ByteBuffer.Buffer.AppendStr | mpegrecover/C/src/buffer.c:82-89 | the bytes of the string before its terminator are appended, without the terminator |
| ByteBuffer.Buffer.Truncate | mpegrecover/C/src/buffer.c:92-101 | the buffer becomes its old bytes cut or zero-extended to the new length |
| ByteBuffer.Buffer.GetLength | mpegrecover/C/src/buffer.c:113-116 | the number of bytes held |
| ByteBuffer.Concat | mpegrecover/C/src/buffer.c:104-110 | a new buffer holding the first buffer's bytes followed by the second's |
| ByteBuffer.Strlen | mpegrecover/C/src/buffer.c:82-89 | the position of the first zero byte |
| ByteBuffer.StrlenOfCString | mpegrecover/C/src/buffer.c:82-89 | for text without zero bytes plus its terminator, strlen is the text's length |
| ByteBuffer.TruncateUndoesAppend | mpegrecover/C/src/buffer.c:92-101 | truncating to the old length after an append restores the old bytes |
| ByteBuffer.TruncateGrows | mpegrecover/C/src/buffer.c:98-100 | growing keeps the old bytes and zero-fills the new ones |
| ByteBuffer.TruncateTwice | mpegrecover/C/src/buffer.c:92-101 | truncating twice is truncating to the smaller length, then to the final one |
| ByteBuffer.TestRegrow | mpegrecover/C/tests/buffer.c:43-58 | append, shrink and regrow give the dummy string, its prefix, and the prefix with seven zeros |
| ByteBuffer.TestSequence | mpegrecover/C/tests/buffer.c:43-72 | the whole test sequence, copy, concatenation and the final 1024 zero bytes |
| JavaTimestamp.Timestamp.constructor | mpegrecover/Java/mpegrecover/mpeg/MpegTimestamp.java:41-43 | five zero elements |
| JavaTimestamp.Timestamp.Copy | mpegrecover/Java/mpegrecover/mpeg/MpegTimestamp.java:48-54 | new storage with the same five elements, so the copy is equal to the original |
| JavaTimestamp.Timestamp.IsEqual | mpegrecover/Java/mpegrecover/mpeg/MpegTimestamp.java:63-68 | true iff all five elements are equal |
| JavaTimestamp.Timestamp.IsBigger | mpegrecover/Java/mpegrecover/mpeg/MpegTimestamp.java:75-83 | true iff the first differing element, from index 0, is larger here |
| JavaTimestamp.Timestamp.IsSmaller | mpegrecover/Java/mpegrecover/mpeg/MpegTimestamp.java:90-97 | true iff the first differing element, from index 0, is smaller here |
| JavaTimestamp.LexAntisymmetric | mpegrecover/Java/mpegrecover/mpeg/MpegTimestamp.java:75-97 | swapping the arguments negates the comparison |
| JavaTimestamp.LexZeroIffEqual | mpegrecover/Java/mpegrecover/mpeg/MpegTimestamp.java:63-97 | the comparison is zero iff the elements are equal |
| JavaTimestamp.Trichotomy | mpegrecover/Java/mpegrecover/mpeg/MpegTimestamp.java:63-97 | a.isBigger(b) equals b.isSmaller(a), and exactly one of isBigger, isSmaller, isEqual holds |
| JavaTimestamp.LexIsCompare | mpegrecover/Java/mpegrecover/mpeg/MpegTimestamp.java:75-97 | on byte-sized elements the Java comparison agrees with the C `mpeg_timestamp_cmp` |
| JavaTimestamp.Difference | mpegrecover/Java/mpegrecover/mpeg/MpegTimestamp.java:107-147 | a new timestamp whose elements are the as-written 16-bit borrow subtraction; the arguments are not changed |
| JavaTimestamp.DifferenceSymmetric | mpegrecover/Java/mpegrecover/mpeg/MpegTimestamp.java:112-119 | difference(t1,t2) and difference(t2,t1) are element-wise equal |
| JavaTimestamp.DifferenceMatchesC | mpegrecover/Java/mpegrecover/mpeg/MpegTimestamp.java:107-147 | reduced to bytes, the Java difference is the C as-written difference |
| JavaTimestamp.DifferenceWidthCounterexample | mpegrecover/Java/mpegrecover/mpeg/MpegTimestamp.java:126-139 | `0,0,0,1,0` minus `0,0,0,0,1` leaves 0xFFFF in a char where C leaves 0xFF, so the result is no longer a byte timestamp |
| JavaTimestamp.DifferenceExact | mpegrecover/Java/mpegrecover/mpeg/MpegTimestamp.java:107-147 | the corrected difference holds bytes whose value is the distance of the two timestamps |
| JavaFragment.Fragment.constructor | mpegrecover/Java/mpegrecover/mpeg/MpegFragment.java:29-33 | start and size 0, no timestamps |
| JavaFragment.Fragment.GetEnd | mpegrecover/Java/mpegrecover/mpeg/MpegFragment.java:45-47 | start plus size in 32-bit wrap-around, equal to the plain sum when that fits |
| JavaFragment.Fragment.SetStart | mpegrecover/Java/mpegrecover/mpeg/MpegFragment.java:41-43 | only start changes, so the end moves with the size kept |
| JavaFragment.Fragment.SetEnd | mpegrecover/Java/mpegrecover/mpeg/MpegFragment.java:49-51 | the end becomes the value and start is unchanged; setting the current end keeps the size |
| JavaFragment.Fragment.SetSize | mpegrecover/Java/mpegrecover/mpeg/MpegFragment.java:57-59 | only size changes |
| JavaFragment.Fragment.SetStartTime | mpegrecover/Java/mpegrecover/mpeg/MpegFragment.java:65-67 | only the start time changes |
| JavaFragment.Fragment.SetEndTime | mpegrecover/Java/mpegrecover/mpeg/MpegFragment.java:73-75 | only the end time changes |
| JavaFragment.Fragment.GetTimeDiff | mpegrecover/Java/mpegrecover/mpeg/MpegFragment.java:79-81 | NullPointerException iff the start or end time is null; otherwise a new timestamp holding end time minus start time |
| JavaFragment.EndAfterSetEnd | mpegrecover/Java/mpegrecover/mpeg/MpegFragment.java:45-51 | for any start and value, the end after setEnd(value) is value, wrap-around included |
| JavaFragment.SizeAfterSetEndOfEnd | mpegrecover/Java/mpegrecover/mpeg/MpegFragment.java:45-51 | setEnd(getEnd()) leaves the size unchanged |
| VirtualStream.FlattenSize | dvrrecover/filereader.py:39-44 | the size is the length of all parts one after the other |
| VirtualStream.OffsetStep | dvrrecover/filereader.py:61-71 | the offset of part i+1 is that of part i plus its size |
| VirtualStream.OffsetBound | dvr-recover.py:287-298 | no offset exceeds the size |
| VirtualStream.FlattenSlice | dvr-recover.py:266-298 | bytes of part i sit in the stream at that part's offset |
| VirtualStream.IndexIsPart | dvrrecover/filereader.py:47-58 | the index of an offset is the unique i with offset(i) at most offset below offset(i) plus part size; none iff the offset is outside the stream |
| VirtualStream.ReadFrom | dvrrecover/filereader.py:117-130 | reading leaves a consistent reader state |
| VirtualStream.ReadIsStreamSlice | dvrrecover/filereader.py:109-130 | a read from a position is the stream slice from the matching offset, continued across part ends; crossing the last part's end closes the reader |
| VirtualStream.StreamReadSplit | dvrrecover/filereader.py:117-130 | a read of k bytes and then the rest is one read |
| VirtualStream.ReadAfterSeek | dvrrecover/filereader.py:92-130 | after a seek, a read that fits returns exactly those bytes of the stream |
| VirtualStream.ReadMoves | dvrrecover/filereader.py:109-130 | after a read that fits, the reader stands at the offset just past the bytes read |
| VirtualStream.FileReader.constructor | dvr-recover.py:254-264 | the parts are given and no part is open |
| VirtualStream.FileReader.GetSize | dvrrecover/filereader.py:39-44 | the sum of the part sizes |
| VirtualStream.FileReader.GetIndex | dvrrecover/filereader.py:47-58 | the loop returns the part holding the offset, or none |
| VirtualStream.FileReader.GetOffset | dvrrecover/filereader.py:61-71 | the loop returns the sum of sizes of the parts before the index |
| VirtualStream.FileReader.Close | dvrrecover/filereader.py:84-89 | no part is open |
| VirtualStream.FileReader.Open | dvrrecover/filereader.py:74-81 | any open part is closed; a valid index is opened at position 0, another raises and leaves none open |
| VirtualStream.FileReader.Seek | dvrrecover/filereader.py:92-101 | an offset inside the stream opens its part at offset minus the part's offset; outside, it raises |
| VirtualStream.FileReader.NextFile | dvrrecover/filereader.py:109-114 | the next part is opened at its start, or the reader closes after the last |
| VirtualStream.FileReader.Read | dvrrecover/filereader.py:117-130 | the recursive read returns and moves as the read specification says, raising when no part is open in strict mode |
| VirtualStream.Create | dvrrecover/filereader.py:25-36 | raises iff a file name starts with `\\.`; otherwise a strict reader over the parts with no part open |
| Database.InsertedAppend | dvrrecover/database.py:98-112 | inserting one more row puts it under the next free row id |
| Database.InsertedConcat | dvrrecover/database.py:98-112 | inserting two lists is inserting their concatenation |
| Database.NextIdFresh | dvrrecover/database.py:98-112 | the next row id is above every id in the table |
| Database.InsertedCount | dvrrecover/database.py:98-112 | inserting rows without ids adds one row each, so `chunk_count` grows by the number inserted |
| Database.InsertedNumbered | dvrrecover/database.py:98-112 | rows inserted after numbered rows are numbered after them |
| Database.InsertedIntoEmpty | dvrrecover/database.py:98-112 | rows inserted into an empty table get ids 1, 2, 3, … |
| Database.FixChangesOnlyShared | dvrrecover/database.py:182-191 | the fix keeps all rows and fields, nulling concat exactly on rows whose concat another row shares |
| Database.FixLeavesUnique | dvrrecover/database.py:182-191 | afterwards no two rows share a non-null concat |
| Database.FixOfUnique | dvrrecover/database.py:182-191 | a table without shared concats is unchanged |
| Database.FixIdempotent | dvrrecover/database.py:182-191 | a second fix changes nothing |
| Database.UniqueReferences | dvrrecover/database.py:167-179 | without shared concats at most one row refers to an id |
| Database.QueryConcatAfterFix | dvrrecover/database.py:167-191 | after the fix, a concat query never finds several rows |
| Database.IdsOf | dvrrecover/database.py:153-164 | the ids of the chunks, in order |
| Database.DatabaseManager.constructor | dvrrecover/database.py:52-73 | the three tables are empty |
| Database.DatabaseManager.ChunkCount | dvrrecover/database.py:75-77 | the number of rows in the chunk table, zero exactly when it is empty |
| Database.DatabaseManager.ChunkLoad | dvrrecover/database.py:80-95 | the chunk with that id and its row, not new, or none if there is no such row |
| Database.DatabaseManager.ChunkSave | dvrrecover/database.py:98-127 | a new chunk is inserted under its id or the next free one and returned with that id and new cleared; a taken id is an integrity error; an old chunk updates only its own row |
| Database.DatabaseManager.NewRowId | dvrrecover/database.py:98-112 | the id SQLite assigns to the next row |
| Database.DatabaseManager.ChunkDeleteId | dvrrecover/database.py:130-133 | only the row with that id is removed |
| Database.DatabaseManager.ChunkDelete | dvrrecover/database.py:136-138 | only the chunk's own row is removed |
| Database.DatabaseManager.ChunkReset | dvrrecover/database.py:141-143 | no rows remain and the count is zero |
| Database.DatabaseManager.ChunkResetConcat | dvrrecover/database.py:146-150 | concat is nulled on every row and nothing else changes |
| Database.DatabaseManager.ChunkQueryIds | dvrrecover/database.py:153-158 | every id exactly once, ordered by clock_start, so as many ids as `chunk_count` |
| Database.DatabaseManager.ChunkQuery | dvrrecover/database.py:161-164 | every chunk exactly once, as loaded, ordered by clock_start |
| Database.DatabaseManager.ChunkQueryConcat | dvrrecover/database.py:167-179 | none if no row refers to the chunk, that row if exactly one does, an error if several do |
| Database.DatabaseManager.ChunkFixMultipleConcats | dvrrecover/database.py:182-191 | the table becomes the fixed table |
| Database.DatabaseManager.StateReset | dvrrecover/database.py:194-196 | the state table is emptied |
| Database.DatabaseManager.StateQuery | dvrrecover/database.py:199-207 | an absent key reads as None |
| Database.DatabaseManager.StateDelete | dvrrecover/database.py:210-215 | only that key is removed |
| Database.DatabaseManager.StateInsert | dvrrecover/database.py:218-223 | the key now reads as the value, replacing any old one, and every other key is unchanged |
| Database.DatabaseManager.SettingReset | dvrrecover/database.py:226-229 | the setting table is emptied |
| Database.DatabaseManager.SettingQuery | dvrrecover/database.py:231-240 | an absent key reads as None |
| Database.DatabaseManager.SettingDelete | dvrrecover/database.py:242-248 | only that key is removed |
| Database.DatabaseManager.SettingInsert | dvrrecover/database.py:250-254 | the key now reads as the value and every other key is unchanged |
| Config.IsValidKey | dvrrecover/config.py:75-82 | true exactly for the six setting names |
| Config.Default | dvrrecover/config.py:43-48 | the defaults are None exactly for the file list and the export directory |
| Config.Encode | dvrrecover/config.py:51-61 | None stays None; a file list is joined with NUL, the empty list becoming None; other values pass unchanged |
| Config.Decode | dvrrecover/config.py:64-72 | a stored file list is split on NUL, and None becomes the empty list |
| Config.FilenamesRoundTrip | dvrrecover/config.py:51-72 | decoding an encoded file list gives it back when no name contains NUL |
| Config.OtherKeysRoundTrip | dvrrecover/config.py:60-72 | values of other keys survive encode and decode |
| Config.StoredFilenamesRoundTrip | dvrrecover/config.py:51-72 | a stored file list survives decode and encode |
| Config.Get | dvrrecover/config.py:85-93 | unknown keys raise; a stored value is decoded; a missing or NULL value gives the decoded default |
| Config.Set | dvrrecover/config.py:96-101 | unknown keys and values that cannot be stored raise and change nothing; otherwise the encoded value is stored, and a non-NULL one reads back through get as its decoding |
| Config.Reset | dvrrecover/config.py:104-106 | no settings remain, so every key reads its default |
| Config.Defaults | dvrrecover/config.py:43-48 | the six defaults: [], 2048, None, 2560, 90000, 90000 |
| ChunkScan.Split | dvr-recover.py:603-613 | no chunk stays open, the previous clock is kept, and nothing happens without an open chunk |
| ChunkScan.Step | dvr-recover.py:624-636 | the previous clock becomes the block's clock only on header blocks; a jump closes the open chunk without opening one |
| ChunkScan.Clocks | dvr-recover.py:620-624 | the clock of each block is its decoded header |
| ChunkScan.FirstShort | dvr-recover.py:620-623 | the first block shorter than the block size |
| ChunkScan.ScanSamePrefix | dvr-recover.py:615-639 | the scan of n blocks depends only on those blocks |
| ChunkScan.ScanNextBlock | dvr-recover.py:618-637 | scanning one more block is one more step |
| ChunkScan.StepKeepsEarlier | dvr-recover.py:603-636 | a step never changes chunks already saved |
| ChunkScan.ScanSplit | dvr-recover.py:615-639 | a scan can be split at any block and continued from its state |
| ChunkScan.Resume | dvrrecover/harddisk.py:237-261 | resuming from the state at block b gives the result of the uninterrupted scan |
| ChunkScan.StepInv | dvr-recover.py:624-636 | one block keeps the invariant on saved and open chunks |
| ChunkScan.ScanInv | dvr-recover.py:615-637 | the invariant holds after any number of blocks |
| ChunkScan.FinishShape | dvr-recover.py:603-639 | each saved chunk is a continuous run of header blocks that the next block breaks (no header, or a clock step that splits), at least the minimum size, with size current-1-start, the chunks in order and separated by that breaking block; a chunk opened after a jump does not include the jump block, so it need not be maximal on the left; the chunk open at the end gets size blocks-2-start |
| ChunkScan.InsertStep | dvrrecover/harddisk.py:213-222 | saving chunks as they close gives the same table as saving them at once |
| ChunkScan.AdvanceScan | dvrrecover/harddisk.py:240-259 | one more block advances the variables and the table together |
| ChunkScan.InsertSplit | dvrrecover/harddisk.py:213-222 | saving on a split is the same as saving at once |
| ChunkScan.Rows | dvrrecover/harddisk.py:213-222 | each found chunk becomes one row |
| ScriptScan.Factory.constructor | dvr-recover.py:469-484 | no chunks, block 0, clock 0, no open chunk |
| ScriptScan.Factory.Split | dvr-recover.py:603-613 | the variables become the split of the old ones |
| ScriptScan.Factory.ScanBlock | dvr-recover.py:624-636 | the variables become one scan step on the block's clock |
| ScriptScan.Factory.ScanAt | dvr-recover.py:618-637 | after block i the variables are the scan of the first i+1 blocks |
| ScriptScan.Factory.Run | dvr-recover.py:615-639 | the seek to offset 0 fails iff the input is empty, changing nothing; a short block raises, leaving the scan up to it; otherwise the chunks are the finished scan of all blocks |
| ScriptScan.Factory.ScanBlocks | dvr-recover.py:619-637 | the loop scans the blocks from block 0; it stops with a short-read error exactly at the first block of the wrong length, leaving the scan of the blocks before it |
| StateTable.LoadAfterSave | dvrrecover/chunkfactory.py:57-85 | reading back a saved state gives the same position, open chunk and previous clock |
| StateTable.SavedHolds | dvrrecover/harddisk.py:44-66 | a saved table holds the scanner's state at that block |
| StateTable.ResumeFromCheckpoint | dvrrecover/harddisk.py:69-83 | a table holding a state resumes at its block with its chunk and clock |
| StateTable.CheckpointTaken | dvrrecover/harddisk.py:86-108 | a checkpoint at block i records the scan of the first i blocks |
| StateTable.CheckedGrows | dvrrecover/harddisk.py:240-259 | a checkpoint stays valid as the scan moves on |
| HarddiskScan.MpegHeaderAsWritten | dvrrecover/harddisk.py:129-210 | the decoder as written returns None or raises, never a clock |
| HarddiskScan.AsWrittenFailsOnEveryHeader | dvrrecover/harddisk.py:160-163 | every valid pack header makes the as-written decoder raise TypeError, where the intended decoder returns its clock |
| HarddiskScan.LoadAfterSaveHere | dvrrecover/harddisk.py:44-83 | load_state after save_state restores the block, the open chunk and the previous clock |
| HarddiskScan.Factory.constructor | dvrrecover/harddisk.py:26-41 | block 0, clock 0, no open chunk |
| HarddiskScan.Factory.SaveState | dvrrecover/harddisk.py:44-66 | the state table holds the current block, the open chunk's fields (or NULL) and the previous clock |
| HarddiskScan.Factory.LoadState | dvrrecover/harddisk.py:69-83 | the block and clock are read back, and a chunk is recreated only when both its fields are stored |
| HarddiskScan.Factory.CheckTimer | dvrrecover/harddisk.py:86-108 | the state is saved exactly when the timer fires |
| HarddiskScan.Factory.Finished | dvrrecover/harddisk.py:111-114 | the state table is emptied |
| HarddiskScan.Factory.Split | dvrrecover/harddisk.py:213-222 | the open chunk is closed with size current-1-start and saved when large enough |
| HarddiskScan.Factory.ScanBlock | dvrrecover/harddisk.py:247-259 | one scan step, with closed chunks inserted in the table |
| HarddiskScan.Factory.ScanFrom | dvrrecover/harddisk.py:240-261 | the loop inserts the chunks of the scan from the start block; a short block raises, leaving the chunks of the scan up to it and a checkpoint of that scan |
| HarddiskScan.Factory.Run | dvrrecover/harddisk.py:225-261 | CreateError iff no position is saved and the table has chunks; otherwise the state table is emptied, the seek fails iff the resume offset is past the input, and else the scan resumes at the saved block and inserts the finished scan's chunks |
| FactoryScan.LoadAfterSaveHere | dvrrecover/chunkfactory.py:57-85 | load_state after save_state restores the block, the open chunk and the previous clock |
| FactoryScan.Factory.constructor | dvrrecover/chunkfactory.py:40-54 | no block, clocks or chunk |
| FactoryScan.Factory.SaveState | dvrrecover/chunkfactory.py:57-70 | the state table holds the block, the open chunk's fields (or NULL) and the previous clock |
| FactoryScan.Factory.LoadState | dvrrecover/chunkfactory.py:73-85 | the block and clock are read back, and a chunk is recreated only when both its fields are stored |
| FactoryScan.Factory.CheckTimer | dvrrecover/chunkfactory.py:88-92 | the state is saved exactly when the timer fires |
| FactoryScan.Factory.Finished | dvrrecover/chunkfactory.py:95-98 | the state table is emptied |
| FactoryScan.Factory.NewChunk | dvrrecover/chunkfactory.py:150-158 | a chunk opens at the current block with the current clock |
| FactoryScan.Factory.EndChunk | dvrrecover/chunkfactory.py:161-170 | the open chunk is saved with size current-1-start and no minimum size, and cleared |
| FactoryScan.Factory.ScanBlock | dvrrecover/chunkfactory.py:190-203 | one scan step on the package decoder's clock, with closed chunks inserted |
| FactoryScan.Factory.ScanFrom | dvrrecover/chunkfactory.py:185-205 | the loop inserts the chunks of the scan from the start block; a short block raises, leaving the chunks of the scan up to it and a checkpoint of that scan |
| FactoryScan.Factory.Run | dvrrecover/chunkfactory.py:173-205 | raises iff no position is saved and the table has chunks; otherwise the state table is emptied, the seek fails iff the resume offset is past the input, and else the scan resumes and inserts the finished scan's chunks |
| ChunkFile.Field | dvr-recover.py:377-384 | a missing field is an IndexError; a present field is read exactly when `int()` accepts it, as that number |
| ChunkFile.ParseLineOfLine | dvr-recover.py:372-398 | a written line reads back as its chunk |
| ChunkFile.FileLinesOfUnlines | dvr-recover.py:376-377 | lines written each with one newline are read back as the same lines |
| ChunkFile.ParseLinesOfLines | dvr-recover.py:376-386 | lines that each read as a chunk read as those chunks in order |
| ChunkFile.ParseLinesStops | dvr-recover.py:376-386 | the first bad line is the error of the whole file |
| ChunkFile.ShortLineMissesField | dvr-recover.py:378-384 | a line with fewer than five numbers raises IndexError |
| ChunkFile.LoadAfterSave | dvr-recover.py:372-398 | loading a saved chunk list gives every chunk back, in order, with all five fields |
| ChunkSort.InsertCount | dvr-recover.py:677 | inserting adds exactly that chunk |
| ChunkSort.InsertSorted | dvr-recover.py:677 | inserting into a sorted list keeps it sorted |
| ChunkSort.SortBySorted | dvr-recover.py:677 | the sort is ordered by its key and a permutation |
| ChunkSort.SortByStable | dvr-recover.py:692 | chunks with equal keys keep their order, as in Python's stable sort |
| ChunkSort.Candidate | dvr-recover.py:654-667 | the first chunk of the list with the smallest admissible delta among chunks not yet placed, or none |
| ChunkSort.RemoveAt | dvr-recover.py:671 | the list without that one entry |
| ChunkSort.FindNextPart | dvr-recover.py:651-673 | following the chain from a chunk places each chosen continuation with concat set until none remains |
| ChunkSort.Link | dvr-recover.py:679-684 | the list built is the chained list of the sorted chunks, and the returned order names the sorted chunk behind each entry |
| ChunkSort.ChosenUnique | dvr-recover.py:654-667 | the continuation chosen after a chunk is unique |
| ChunkSort.ChainedUnique | dvr-recover.py:651-684 | the chained list of a sorted list is unique |
| ChunkSort.ChainedLinks | dvr-recover.py:651-684 | each concat chunk follows a chunk whose end it continues within the gap; the first entry is the first sorted chunk without concat |
| ChunkSort.ChainedPermutation | dvr-recover.py:679-684 | every chunk appears exactly once, with only its concat flag changed |
| ScriptMain.Blocks | dvr-recover.py:729-734 | the bytes read for a chunk: the slice at its offset, or a read error |
| ScriptMain.ProductIs | dvr-recover.py:729-731 | the offset and length are block counts times the block size |
| ScriptMain.RunEnd | dvr-recover.py:757-764 | the end of the run of concat chunks after a chunk |
| ScriptMain.RunEndAt | dvr-recover.py:757-764 | any run of concat chunks lies inside that run and ends it at a non-concat chunk |
| ScriptMain.Extracts | dvr-recover.py:743-766 | the result of extract_chunk for each index |
| ScriptMain.CopyRangeStops | dvr-recover.py:757-764 | once a chunk fails to copy, the whole file fails with its error |
| ScriptMain.CopyRangeOk | dvr-recover.py:724-764 | a chain copies iff every chunk copies, and the file is the chunks' bytes one after the other |
| ScriptMain.ExportAllStops | dvr-recover.py:772-774 | the first error stops the export |
| ScriptMain.ExportAllFiles | dvr-recover.py:772-774 | without an error, exactly the non-concat chunks get a file holding their chain |
| ScriptMain.ExportAllError | dvr-recover.py:772-774 | an error comes from the first chain start whose extraction fails |
| ScriptMain.SortedRunLinks | dvr-recover.py:651-686 | each chain exported after sorting joins continuations within the gap |
| ScriptMain.ReadBlock | dvr-recover.py:343-356 | a block read returns the next block of the stream and moves past it, or a short read at the end |
| ScriptMain.Main.constructor | dvr-recover.py:361-370 | the parts, chunk file and settings given, and no chunks or exported files |
| ScriptMain.Main.LoadChunkList | dvr-recover.py:372-386 | the chunks are the parsed chunk file, or its error |
| ScriptMain.Main.SaveChunkList | dvr-recover.py:389-398 | the chunk file becomes the formatted chunks |
| ScriptMain.Main.Sort | dvr-recover.py:649-686 | the saved list is the chained list of the loaded chunks sorted by clock_start |
| ScriptMain.Main.Reset | dvr-recover.py:689-695 | the saved list is the loaded chunks sorted by block_start, with every concat cleared |
| ScriptMain.Main.ReadAt | dvr-recover.py:343-356 | one block read through the non-strict reader |
| ScriptMain.Main.CopyChunk | dvr-recover.py:724-741 | a chunk's bytes, or the error of a short read |
| ScriptMain.Main.CopyBlocks | dvr-recover.py:729-734 | the loop reads exactly the chunk's slice of the stream, or fails when it runs past the end |
| ScriptMain.Main.CopyChain | dvr-recover.py:757-764 | the file of the chunk and the concat chunks after it |
| ScriptMain.Main.ExtractChunk | dvr-recover.py:743-766 | an error on a concat chunk; otherwise the file of its chain is exported under its index |
| ScriptMain.Main.ExportEvery | dvr-recover.py:772-774 | the files and error of exporting every chain start in order |
| ScriptMain.Main.Export | dvr-recover.py:768-781 | the chunk list is loaded first and a parse error stops the export; then every chain is exported, or the given index, and an index out of range raises |

## Left out

- Command-line handling and printing: `dvrrecover/cmdline.py`, `mpegrecover/C/src/main.c`, `Configuration.java`, `MpegRecover.java`, and `Main.run`, `usage`, `load_settings`, `sample_settings`, `test_settings` and `show` in `dvr-recover.py`. They parse arguments and print only.
- `dvrrecover/core.py` only forwards calls to the database and the reader.
- Wall-clock time and throughput output: `dvrrecover/utils.py` `Timer` and every `check_timer`/`finished` printout. They use the clock and floating point. The timer's firing is a parameter.
- The script's `ChunkFactory.check_timer`/`finished` (dvr-recover.py:486-518) only print, so they have no member.
- `dvrrecover/state.py` is a key whitelist whose `get`/`set` use a `self.db` that does not exist. The scanners write the state table through `Database.DatabaseManager` directly.
- The `time_elapsed` state key of harddisk.py is left out. It is wall-clock time.
- `dvrrecover/chunk.py`, `MpegBlock.java` and `mpeg_fragment_create` are plain records, modelled as datatypes.
- `little_endian`/`init_endianness` are left out: timestamps are modelled at the byte-value level, independent of host byte order.
- Real I/O is left out:
  - `fopen`, `fread` and `ferror`, and `os.stat`;
  - file handles and closing;
  - writing the chunk file and export files. The chunk file is a string, and exported files are a map from chunk index to bytes.
- The ferror cleanup at analysis.c:163-167 is resource handling.
- SQLite itself is left out: the tables are maps with the stated semantics. `open`, `close` and `commit` are not modelled.
- NameErrors from missing imports are left out, and so is the unreachable `self.end_chunk(self)` at chunkfactory.py:153.
- malloc/realloc failure paths and every `*_destroy` function are left out. Memory is garbage-collected in Dafny.
- `dllist_first`, `dllist_last`, `dllist_next`, `dllist_prev` and `dllist_get_data` read a field. They are captured by the list invariant, not separate members.
- The Java getters `getStart`, `getSize`, `getStartTime` and `getEndTime` are field reads.
- MpegTime.Compare: `mpeg_timestamp_cmp` narrows memcmp's int to char (mpeg.c:210). Only the sign of the comparison is modelled.
- `MpegTimestampTest.setValueFromInt` is a test helper using floating-point `Math.log`/`Math.pow`.
- ScriptMain.Main.Export: the `int(sys.argv[2])` ValueError is not modelled. The chunk index arrives as an optional integer.
- Partially written export files left behind after an error are not modelled.
- HarddiskScan.Factory.Run: `current_block` is a Python int, which is unbounded, as here. A negative block size is excluded by type.
- FactoryScan.Factory.SaveState: the state keys `block_cur` and `clock_old` (chunkfactory.py:66-69, 75-78) are not among the names state.py:24-28 defines, the `chunk` module has no `block_start` name (chunkfactory.py:62), and `Chunk` (chunk.py:20-33) has no `get`, `set` or `save` (chunkfactory.py:82-83, 155-169). As written, `load_state` raises AttributeError. The model takes the names as keys and saves a chunk as a new row.
- ByteBuffer.Buffer.Append: the new length is an unsigned int sum (buffer.c:75-78) that wraps modulo 2^32. Lengths here are unbounded.
- ByteBuffer.Buffer.AppendStr: the same unsigned int sum of lengths (buffer.c:84-88) wraps modulo 2^32; not modelled.
- ByteBuffer.Concat: the summed length wraps modulo 2^32 in the source; not modelled.
- ScriptScan.Factory.Run: requires a block size of at least a pack header (9 bytes). As written, block size 0 raises ZeroDivisionError at dvr-recover.py:484, and block sizes 1 to 8 make the header decoder index past the block (IndexError).
- HarddiskScan.Factory.Run: requires a block size of at least a pack header (9 bytes). Block size 0 raises ZeroDivisionError at harddisk.py:41; block sizes 1 to 8 fail in the decoder.
- HarddiskScan.Factory.ScanFrom: requires the same block size of at least 9 bytes as `Run`.
- FactoryScan.Factory.Run: requires a block size of at least a pack header (9 bytes). Block size 0 raises ZeroDivisionError at chunkfactory.py:54; block sizes 1 to 8 fail in the decoder.
- FactoryScan.Factory.ScanFrom: requires the same block size of at least 9 bytes as `Run`.
- ScriptScan.Factory.ScanAt: requires the same block size of at least 9 bytes as `Run`.
- ScriptScan.Factory.ScanBlock: requires a block of at least 9 bytes, as `Run` does.
- HarddiskScan.Factory.ScanAt: requires the same block size of at least 9 bytes as `Run`.
- FactoryScan.Factory.ScanAt: requires the same block size of at least 9 bytes as `Run`.
- FactoryScan.Factory.ScanBlock: requires a block of at least 9 bytes, as `Run` does.
- Analysis.AnalyzeStream: block counters are unsigned int in analysis.c (`block_current`, and a fragment's `block_start` and `block_size` from mpeg.h) and wrap after 2^32 blocks; they are unbounded here.
- Analysis.AnalyzeStream: requires a block size of at least a pack header (9 bytes). Smaller block sizes loop forever or over-read in the C code (see Findings); `AnalyzeChecked` is the guarded form.
- HarddiskScan.Factory.Run: decodes headers with the decoder of dvr-recover.py. As written, harddisk.py:160 raises TypeError at the first block that starts with a pack start code (see Findings).
- HarddiskScan.Factory.ScanFrom: decodes with the decoder of dvr-recover.py, not the failing harddisk.py:160-163.
- HarddiskScan.Factory.ScanBlock: decodes with the decoder of dvr-recover.py, not the failing harddisk.py:160-163. It requires a block of at least 9 bytes, as `Run` does.
- ChunkSort.FindNextPart: Python's recursion limit in `find_next_part` and in `read` is not modelled.
- VirtualStream.FileReader.Seek: the source reopens a part only when it differs from the current one. Without file handles both paths give the same state, so the model does not tell them apart.
- The Python `Chunk` objects compare by identity in `sort`. The linker names chunks by their position in the sorted list.

## Findings

| source | as written | input that shows it | evidently intended | confidence | as-written member | corrected member |
|---|---|---|---|---|---|---|
| mpegrecover/C/src/mpeg.c:178-202 | whether a byte borrows is decided by `big[i] < small[i]` alone, so a byte that reaches zero only through an earlier borrow does not borrow again | t1 = `00 00 01 01 00`, t2 = `00 00 00 01 01` gives `00 00 01 FF FF` (0x1FFFF) | the distance 0xFFFF, `00 00 00 FF FF` | not executed | MpegTime.DiffAsWrittenCounterexample | MpegTime.DiffExact |
| mpegrecover/C/src/analysis.c:93-95 | the gap test compares the as-written difference with the maximal gap | clock 0x101 followed by 0x10100, gap 90000: cut, though the clocks are 65535 apart | cut only when the clock falls or rises by more than the gap | not executed | Analysis.ByteCutAsWrittenCounterexample | Analysis.ByteCutIsJump |
| mpegrecover/Java/mpegrecover/mpeg/MpegTimestamp.java:126-139 | elements are 16-bit chars, so a borrow wraps to 0xFFFF instead of 0xFF | `0,0,0,1,0` minus `0,0,0,0,1` leaves 0xFFFF in the last element | byte digits, value = distance | not executed | JavaTimestamp.DifferenceWidthCounterexample | JavaTimestamp.DifferenceExact |
| dvrrecover/chunkfactory.py:138-147 | the bit table has 32 entries, so SCR bit 32 (bit 5 of byte 4) is never read | a pack header with clock 2^32 decodes to 0 | the 33-bit SCR of ISO/IEC 13818-1 section 2.5.3.3 | not executed | PackHeader.FactoryDropsTopBit | PackHeader.HeaderRoundTrip |
| dvrrecover/harddisk.py:160-163 | `buf[4] >> 6` shifts a one-character string before `ord` is applied, raising TypeError | any valid pack header, e.g. the one for clock 0 | the clock decoded as in dvr-recover.py | not executed | HarddiskScan.AsWrittenFailsOnEveryHeader | PackHeader.HeaderRoundTrip |
| mpegrecover/C/src/main.c:68 | `atoi` takes any block size, and analysis.c:61 reads `blocksize` bytes per turn, so block size 0 reads nothing and succeeds forever | `-b 0` on any input | refuse a block size shorter than a pack header | not executed | Analysis.ZeroBlockSizeNeverEnds | Analysis.AnalyzeChecked |
| mpegrecover/C/src/mpeg.c:29-46 | `mpeg_is_valid` reads bytes 4, 6 and 8 after matching the start code, whatever the block size | a block size of 4 and a block `00 00 01 BA` | refuse a block size shorter than a pack header | not executed | Analysis.ShortBlockOverRead | Analysis.AnalyzeChecked |
