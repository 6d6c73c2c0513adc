# STDB: a verified model of its core

STDB is a time-series and spatial store. This project models eight of its parts in Dafny and proves, for all inputs or
over all runs, what they are for.

- **Block codec** (`Bits`, `Leb128`, `VByte`, `DeltaDelta`, `Fcm`, `BlockFormat`, `StreamWriters`, `StreamReaders`,
  `DataBlock`, `RoundTrip`, `Regular`). Timestamps are delta coded, reduced by their minimum and packed in pairs;
  values are predicted, xored and stored with a nibble flag; both share one byte cursor in a bounded block with a raw
  tail. `RoundTrip.WriteThenRead` is the round trip for any block and any sequence of puts. It holds exactly as long
  as the number of chunks, a function of size and input, fits its 16-bit field; `RoundTrip.EveryInputFits` says for
  which sizes that is so for every input, and `RoundTrip.ChunkCountWraps` is a failing run for every other size.
  `Regular` says what compression is worth: what the predictor predicts, and how many points of a regular series a
  block takes.
- **CRC-32C** (`Crc32c`, `Crc32cPoly`, `Crc32cSw`, `Crc32cHw`). The digest of section 12.1 of RFC 3720, bit by bit,
  and as the remainder of a polynomial over GF(2); its linearity; and the two fast forms, slicing by eight and three
  lanes joined by matrix operators, proved equal to it.
- **R-tree** (`RTreeGeometry`, `RTreeShape`, `RTreePath`, `RTreeBlocks`, `RTreeSteps`, `RTrees`, `RTreeQueries`).
  Insertion with in-place splits and repair of the rectangles on the path, range query, and best-first search for the
  nearest neighbours. A tree value says what the blocks stand for; a path of frames says what is out of date while an
  insertion is under way.
- **Write-ahead log** (`Numbers`, `LogFrame`, `LogPages`, `LogSlips`, `LogSteps`, `LogVolume`, `InputLogs`,
  `ShardMerge`, `LogShards`, `LogKept`, `LogRecovery`). Typed frames and slotted pages byte by byte, volumes and their
  rotation, shards with one sequencer, and the merge of their streams by sequence number. The merge takes a frame
  without rows for the end of its stream, and the writer can leave such a frame behind: a row of another kind comes
  when a page was just started and has no rows. This is called a slip, and it is a function of the run of a volume
  (`LogSlips.SlipOf`). `LogSteps` has the log as a value, so that what is kept is a function of the commands and the
  settings, and `LogKept` says how much that is. `LogRecovery.LogAndRecover` takes logging, rotation and recovery
  together: everything kept comes back if and only if there is no slip. `LogRecovery.LostPoint` is a run that loses a
  data point.
- **Block store** (`BlockStore`, `Checksum`). The ring of volumes with addresses of generation and block, and the
  checksum of a block held in pieces. `BlockStore.GenerationExact` says for which volumes every transition raises the
  generation by exactly one; with a volume of no capacity it does not.
- **Cursor** (`Cursor`). The bounded queue between the query thread and the client, one locked section at a time, for
  samples of any size. `Cursor.CapacityExact` says how many samples fit, and `Cursor.SizesExact` which sizes a client
  can be served: a sample shorter than 34 bytes does not contain its own size.
- **RESP parser** (`Resp`, `RespGrammar`, `RespStable`, `RespChunks`, `RespBuffer`, `RespParser`, `RespStreams`).
  Which bytes are messages and dictionaries and what they mean, with the proof that the reader takes exactly these;
  what the reader makes of the bytes received so far, why more bytes do not change it, and when the way a stream is
  cut into chunks does not matter: `RespChunks.ChunksMatterExactly` says it matters exactly when an array behind the
  first message has not been received yet and reading on from it, as a dictionary, does something else than to throw
  at once.
- **Series index** (`PostingList`, `StringPools`, `SeriesIndex`). Compressed posting lists over the string pool, and
  the metric query with its filter for hash collisions.

Objects whose methods update their fields are classes with the same fields; each method is tied to a specification
function or to an abstract history, and the theorems are about those. Throwing and stopping the process are results of
the methods or are proved not to happen.

How the model reads the source:

- Doubles are 64-bit patterns; timestamps and ids in the codec wrap at 64 bits. The R-tree computes with exact
  numbers. Counters that only grow (sequence numbers, write positions, lengths) are unbounded unless their width is
  the point: chunk and tail counts (16 bits), generations (32 bits), array sizes in messages (cut to 32 bits).
- Integers are stored least significant byte first.
- The compressor and the files of the log are a list of frames that comes back as it was written; how many bytes the
  compressor makes of a frame is a parameter. Volumes of the block store are files of blocks with a write position.
- The `crc32b` and `crc32q` instructions are one and eight byte steps.
- The names-to-ids lookup, the timestamp and floating point parsers of the RESP parser, the canonical form and the
  hash of series names are function parameters; the canonical form is a metric without spaces, a space and tags,
  without zero bytes.
- The memory behind a buffer of the cursor, where the size field of a short last sample can lie, is a parameter. A put
  that waits is entered again as another locked section, and a read that waits as another read with the room left.
- The shards of the log are there from the start; the source makes them on first use, which takes no numbers.
- The heap of the nearest-neighbour search is a list from which a smallest element is taken. Tree blocks have numbers
  for addresses, and block 0 is the null pointer.

Where code and comments disagree the model follows the code: a block cannot hold "up to one million chunks" since the
count has 16 bits; the cursor takes the size field of a sample as it is, so a size of 0 does not stand for the size of
the structure; a put of such a sample succeeds and stores nothing.

## Model

| member | source | states |
|---|---|---|
| `RoundTrip.WriteThenRead` | stdb/storage/compression.cc:88-218 | main theorem: for every block size from 14 and every sequence of puts, the puts that succeed are the first `Capacity(size, input)` ones, and the reader returns exactly their pairs, in order and bit for bit, then NoData, if and only if `ChunkCount(size, input)`, a function of the size and the input, is at most 65535; the announced count equals `get_write_index` before the commit under the same condition; blocks of up to 196922 bytes always read back |
| `RoundTrip.EveryInputFits` | stdb/storage/compression.cc:123-162 | every input makes at most 65535 chunks, and so reads back, if and only if the block has at most 196922 bytes |
| `Regular.RegularCapacity` | stdb/storage/compression.cc:88-162 | main theorem on regular series: timestamps rising by dt and values, as bit patterns, by dv, both wrapping; for every block size and every such series the chunks and points taken are an explicit number, in which every chunk but the first has the length of dt in base 128 and two bytes more, and MARGIN and header are 304 and 14 bytes |
| `Regular.TickingOnes` | stdb/storage/compression.cc:88-162 | a point at every tick with value 1.0: the 28 bytes of the first chunk, and 1252 chunks and 20050 points in a block of 4096 bytes |
| `Regular.RegularChunk` | stdb/storage/compression.cc:123-162 | every chunk of a regular series but the first is the base-128 bytes of the step in time and twice 0xFF |
| `Regular.RegularLength` | stdb/storage/compression.cc:123-162 | so the compressed part of k chunks has an explicit length |
| `Regular.ThreeSteps` | stdb/storage/compression.cc:47-55 | from any state of the predictor, after three values that each rise by the same amount, wrapping or not, the next such value is predicted |
| `Regular.HashOfTwo` | stdb/storage/compression.cc:51-55 | the hash is made of bits 50 to 56 of the last difference and bits 50 and 51 of the one before it, and of nothing else |
| `Regular.Settles` | stdb/storage/compression.cc:51-55 | at least four evenly rising values leave a predictor that predicts the rest of the series, whatever came before |
| `Regular.SteadyChunk` | stdb/storage/compression.h:1003-1046 | sixteen values that go on evenly are the single byte 0xFF |
| `Regular.EvenStamps` | stdb/storage/compression.h:826-844 | sixteen timestamps with equal differences are the base-128 bytes of the difference and 0xFF |
| `RoundTrip.PutAll` | stdb/storage/compression.cc:88-121 | the puts that succeed are a beginning of the input, as long as the capacity says; the chunks written are as many as fit |
| `RoundTrip.ChunkCountWraps` | stdb/storage/compression.cc:146-152 | for every size from 196923: a run whose puts all succeed and whose 16-bit chunk count wraps to zero, so that nothing reads back |
| `RoundTrip.WrappedIsEmpty` | stdb/storage/compression.cc:197-218 | what the reader then gives back: nothing |
| `RoundTrip.OriginEncoding` | stdb/storage/compression.cc:88-100 | runs of zeros take three bytes each, which is what makes that block possible |
| `RoundTrip.Drain` | stdb/storage/compression.cc:197-218 | stepping the reader equals the reading function over the block bytes |
| `DataBlock.ReadBack` | stdb/storage/compression.cc:197-218 | a committed block reads back as the accepted points if and only if its chunk count fits 16 bits, and its header total equals their number under the same condition |
| `DataBlock.SmallBlocksFit` | stdb/storage/compression.cc:123-162 | no input makes a block of at most 196922 bytes take more than 65535 chunks |
| `DataBlock.CapacityOfInv` | stdb/storage/compression.cc:88-121 | a writer that took a beginning of the input, and is full if it did not take all, has taken as many points and chunks as size and input determine |
| `DataBlock.CountOfInv` | stdb/storage/compression.cc:95-100 | the chunks written are exactly those that had the margin free when their first point came |
| `DataBlock.DataBlockWriter.constructor` | stdb/storage/compression.cc:67-86 | an empty block: version and id in the header, counters zero |
| `DataBlock.DataBlockWriter.Put` | stdb/storage/compression.cc:88-121 | succeeds if and only if 16 bytes are free; then the accepted history grows by the pair, otherwise it is unchanged; the branch for a lost chunk is not reached |
| `DataBlock.DataBlockWriter.FlushChunk` | stdb/storage/compression.cc:95-107 | a full write buffer becomes one chunk, never failing for lack of space |
| `DataBlock.DataBlockWriter.PutTail` | stdb/storage/compression.cc:108-119 | uncompressed pair in the tail, or overflow with the history unchanged |
| `DataBlock.DataBlockWriter.Commit` | stdb/storage/compression.cc:123-153 | the block holds all accepted points as chunks and tail, and tail count plus write index still equals their number; the data-loss and fatal branches are not reached |
| `DataBlock.DataBlockWriter.FlushOpenRun` | stdb/storage/compression.cc:131-149 | the buffered points of an unfinished chunk all go to the tail |
| `DataBlock.DataBlockWriter.GetWriteIndex` | stdb/storage/compression.cc:177-184 | the number of accepted points |
| `DataBlock.RoomMeansFilling` | stdb/storage/compression.cc:155-162 | with the margin free the writer is still filling chunks |
| `DataBlock.NoRoomMeansTailing` | stdb/storage/compression.cc:108-111 | without it the write buffer is empty and stays so |
| `DataBlock.BufferStep` | stdb/storage/compression.cc:89-94 | a point in the write buffer leaves the free space, and so `room_for_chunk`, as it was |
| `DataBlock.FlushStep` | stdb/storage/compression.cc:95-101 | the invariant of the block survives a chunk |
| `DataBlock.TailStep` | stdb/storage/compression.cc:108-116 | the invariant survives a tail pair |
| `DataBlock.TailFull` | stdb/storage/compression.cc:112-118 | the invariant survives a tail pair that does not fit, including the half-written one |
| `BlockFormat.HoldsReadsBack` | stdb/storage/compression.cc:197-218 | any block with the written layout reads back as its points, then NoData |
| `BlockFormat.NextInMain` | stdb/storage/compression.cc:198-207 | one read inside the chunk area gives the next point and keeps reader and writer states equal |
| `BlockFormat.NextInTail` | stdb/storage/compression.cc:208-216 | one read in the tail gives the next point |
| `BlockFormat.EncodeBound` | stdb/storage/compression.cc:155-162 | k chunks take between 3k and 282k bytes |
| `BlockFormat.EncodePrefix` | stdb/storage/compression.cc:88-101 | earlier chunks do not depend on later points |
| `DeltaDelta.ChunkBound` | stdb/storage/compression.h:826-844 | a chunk of timestamps takes 2 to 146 bytes |
| `DeltaDelta.ReadsChunk` | stdb/storage/compression.h:826-889 | for any 16 timestamps, wrapping or not, decoding gives them back, leaves equal states and ends at the end of the chunk |
| `DeltaDelta.ChunkMinIsLeast` | stdb/storage/compression.h:826-838 | what is taken off the differences of a chunk is one of them, and none is smaller |
| `VByte.ChunkBound` | stdb/storage/compression.h:368-390 | 16 numbers take 1 to 136 bytes |
| `VByte.CtrlNibbles` | stdb/storage/compression.h:325-327 | an ordinary control byte is never 0xFF, and its nibbles are the two lengths |
| `VByte.PairLength` | stdb/storage/compression.h:315-344 | a pair takes one byte and the significant bytes of both numbers |
| `VByte.PairExample` | stdb/storage/compression.h:315-344 | the bytes of the pair 258 and 5 |
| `VByte.ReadsChunk` | stdb/storage/compression.h:315-390 | 16 numbers written in pairs or by the zero shortcut are read back, the reader ending at the end of the chunk |
| `Fcm.ChunkBound` | stdb/storage/compression.h:1003-1046 | a chunk of values takes 1 to 136 bytes |
| `Fcm.ValueRoundTrip` | stdb/storage/compression.h:935-982 | a difference stored under its flag is decoded to itself |
| `Fcm.FlagsSplit` | stdb/storage/compression.h:1027-1033 | an ordinary flag byte is never 0xFF, and splits into the two flags |
| `Fcm.KeptBytes` | stdb/storage/compression.h:1048-1080 | of a difference all bytes are stored but the zero bytes at the end that has more of them, at least one |
| `Fcm.PairLength` | stdb/storage/compression.h:1003-1046 | a pair takes one byte and the bytes stored of both differences |
| `Fcm.ReadsChunk` | stdb/storage/compression.h:1003-1201 | for any 16 bit patterns, from equal predictors, decoding gives them back, leaves the predictors equal and ends at the end of the chunk |
| `Leb128.GetPut` | stdb/storage/compression.h:46-120 | reading a base-128 number gives the number written and the position behind it |
| `Leb128.PutAtMost10` | stdb/storage/compression.h:97-120 | a 64-bit number takes at most ten bytes |
| `Leb128.PutShortest` | stdb/storage/compression.h:97-120 | the number of bytes is the least number of groups of seven bits that hold the value |
| `Leb128.Examples` | stdb/storage/compression.h:97-120 | the examples of section 7.6 of DWARF Version 5 |
| `Bits.ByteLengthIsWidth` | stdb/storage/compression.h:317-326 | the leading-zero count gives the least number of bytes that hold the value |
| `Bits.CtzVsZeroBytes` | stdb/storage/compression.h:1062-1064 | the trailing-zero count divided by eight is the number of low zero bytes |
| `Bits.DropThenPad` | stdb/storage/compression.h:936-938 | shifting out low zero bytes loses nothing |
| `Bits.BytesRoundTrip` | stdb/storage/compression.h:334-341 | little-endian bytes of sufficient number give the value back |
| `Bits.ToBytesAt` | stdb/storage/compression.h:334-341 | byte i holds bits 8i and up |
| `StreamWriters.VByteStreamWriter.Encode` | stdb/storage/compression.h:315-344 | writes the pair of the specification or, without space, nothing |
| `StreamWriters.VByteStreamWriter.PutBase128` | stdb/storage/compression.h:347-355 | writes the base-128 bytes or leaves the position |
| `StreamWriters.VByteStreamWriter.PutRaw` | stdb/storage/compression.h:415-422 | writes the value little-endian, or leaves the stream unchanged |
| `StreamWriters.VByteStreamWriter.TPut` | stdb/storage/compression.h:368-390 | all sixteen numbers, or the position restored |
| `StreamWriters.DeltaDeltaStreamWriter.TPut` | stdb/storage/compression.h:826-844 | writes the chunk of the specification; the last timestamp becomes the base |
| `StreamWriters.DfcmPredictor.PredictNext` | stdb/storage/compression.cc:47-49 | the table entry under the hash plus the last value, wrapping; what this predicts is the subject of `Regular.ThreeSteps` |
| `StreamWriters.DfcmPredictor.Update` | stdb/storage/compression.cc:51-55 | the table, hash and last value of the specification |
| `StreamWriters.FcmStreamWriter.EncodeValue` | stdb/storage/compression.h:935-982 | the fall-through cases write exactly the bytes of the value under the flag |
| `StreamWriters.FcmStreamWriter.EncodeDiff` | stdb/storage/compression.h:1048-1094 | prediction, difference and flag of the specification; the predictor is updated |
| `StreamWriters.FcmStreamWriter.TPut` | stdb/storage/compression.h:1003-1046 | writes the chunk of the specification and updates the predictor by all values |
| `StreamReaders.VByteStreamReader.Next` | stdb/storage/compression.h:670-698 | one step of the reading function; None where the source stops the process |
| `StreamReaders.VByteStreamReader.NextBase128` | stdb/storage/compression.h:700-708 | one base-128 number, or None |
| `StreamReaders.DeltaDeltaStreamReader.Next` | stdb/storage/compression.h:879-889 | one step of the reading function over timestamps |
| `StreamReaders.FcmStreamReader.DecodeValue` | stdb/storage/compression.h:1162-1172 | the byte loop equals the decoding function |
| `StreamReaders.FcmStreamReader.Next` | stdb/storage/compression.h:1174-1201 | one step of the reading function over values |
| `StreamReaders.DataBlockReader.Next` | stdb/storage/compression.cc:197-218 | one step of the reading function over blocks |
| `Crc32cHw.Hw` | stdb/common/crc32c.cc:227-313 | main theorem: the three-lane form equals the bitwise CRC-32C for every seed, string and alignment, which `Crc32cPoly.DigestExact` characterises |
| `Crc32cSw.Sw` | stdb/common/crc32c.cc:77-106 | main theorem: the slicing-by-8 form equals the bitwise CRC-32C for every seed, string and alignment, which `Crc32cPoly.DigestExact` characterises |
| `Crc32cPoly.DigestExact` | stdb/common/crc32c.cc:41-106 | main theorem: the digest of a string is the only word whose complement is the remainder, by the generator of section 12.1 of RFC 3720 given by its exponents, of the message times x to the 32 with its first 32 bits complemented |
| `Crc32cPoly.RegisterIsRemainder` | stdb/common/crc32c.cc:77-106 | for every register and string: the register afterwards is the remainder of the message times x to the 32 plus what the register held, moved up by the length of the message |
| `Crc32cPoly.RemainderUnique` | stdb/common/crc32c.cc:41-42 | a polynomial over GF(2) has only one remainder of degree below 32 |
| `Crc32cPoly.PolyIsGenerator` | stdb/common/crc32c.cc:41-42 | the constant of the source is the generator without its leading term, in reversed bit order |
| `Crc32cPoly.RegisterBit` | stdb/common/crc32c.cc:55-62 | one step of the register is one step of the division |
| `Crc32cPoly.DigestOfZeros` | stdb/common/crc32c.cc:77-106 | 32 bytes of zeros have the digest 0x8A9136AA of section B.4 of RFC 3720 |
| `Crc32c.SerialIsRaw` | stdb/common/crc32c.cc:49-64 | the bytewise register equals the message fed bit by bit, as the definition of the digest has it |
| `Crc32c.BitLinear` | stdb/common/crc32c.cc:55-62 | one step of the register is linear over GF(2) |
| `Crc32c.RawLinear` | stdb/common/crc32c.cc:77-106 | the register after a string is linear in seed and string |
| `Crc32c.CrcConcat` | stdb/common/crc32c.cc:77-106 | running over a second piece with the first result as seed is the CRC of the concatenation |
| `Crc32c.RawJoin` | stdb/common/crc32c.cc:253-269 | the register over a concatenation is that of the first part shifted by the length of the second, xored with the second |
| `Crc32c.Bits8Split` | stdb/common/crc32c.cc:65-71 | eight steps act on the low byte and the rest separately |
| `Crc32c.RawMixIn` | stdb/common/crc32c.cc:89-97 | mixing the register into the first bytes of the string instead of the seed |
| `Crc32c.RawIsXorSum` | stdb/common/crc32c.cc:89-97 | the register after eight bytes is the xor of the eight contributions |
| `Crc32cSw.InitSw` | stdb/common/crc32c.cc:49-72 | table row k holds, for every byte, its register after k further zero bytes |
| `Crc32cSw.InitColumn` | stdb/common/crc32c.cc:65-71 | one column of the tables from the first row |
| `Crc32cSw.ByteStep` | stdb/common/crc32c.cc:84-87 | a table lookup is eight bit steps |
| `Crc32cSw.SliceBy8` | stdb/common/crc32c.cc:88-100 | eight lookups are eight bytewise steps |
| `Crc32cSw.EightSlices` | stdb/common/crc32c.cc:90-97 | the xor of the eight lookups is the register after the eight bytes |
| `Crc32cHw.Times` | stdb/common/crc32c.cc:113-125 | the matrix product over GF(2) |
| `Crc32cHw.Square` | stdb/common/crc32c.cc:129-135 | the matrix of applying the operator twice |
| `Crc32cHw.DotSquare` | stdb/common/crc32c.cc:129-135 | squaring is composition |
| `Crc32cHw.SquareDoubles` | stdb/common/crc32c.cc:156-172 | an operator for n zero bits squares to the one for 2n |
| `Crc32cHw.OneBitOperator` | stdb/common/crc32c.cc:148-154 | the first matrix is the operator of one zero bit |
| `Crc32cHw.ZerosOp` | stdb/common/crc32c.cc:142-177 | the result is the operator of the largest power of two of zero bytes not above the length, so of the length itself exactly for powers of two |
| `Crc32cHw.Floor2Meaning` | stdb/common/crc32c.cc:137-177 | that power of two |
| `Crc32cHw.Zeros` | stdb/common/crc32c.cc:181-193 | the four tables hold the operator applied to each byte of a register |
| `Crc32cHw.Shift` | stdb/common/crc32c.cc:196-200 | four lookups equal the matrix product |
| `Crc32cHw.ThreeLanes` | stdb/common/crc32c.cc:253-289 | three registers recombined by two shifts are the register over the three blocks in sequence |
| `RTreeQueries.InsertThenQuery` | stdb/index/rtree.h:594-720 | main theorem: after any sequence of inserts the range query returns exactly the payloads inside the closed rectangle, as a multiset, and the nearest-neighbour query the k nearest in order |
| `RTrees.RTree.Insert` | stdb/index/rtree.h:594-610 | keeps the whole invariant of the tree (balanced, levels right, every child rectangle exactly the bounding box of its subtree, no block over capacity, no block shared) and adds exactly the one entry |
| `RTrees.RTree.constructor` | stdb/index/rtree.h:881-883 | the empty tree |
| `RTrees.RTree.InsertAt` | stdb/index/rtree.h:820-834 | insertion at the end of a path, with or without a split, keeps the invariant; the height grows by at most one |
| `RTrees.RTree.InsertUp` | stdb/index/rtree.h:836-852 | carrying a split upwards keeps all entries and repairs all rectangles |
| `RTrees.RTree.GrowRoot` | stdb/index/rtree.h:854-861 | the new root has both halves with their bounding boxes; neither insertion into it can fail |
| `RTrees.RTree.ChoosePaths` | stdb/index/rtree.h:867-878 | the recorded path leads from the root to a leaf through the chosen children |
| `RTrees.RTree.ChooseSubnode` | stdb/index/rtree.h:565-576 | a child at least distance, the first one of several; the first child if no distance is below the largest number |
| `RTrees.RTree.UpdateRect` | stdb/index/rtree.h:799-814 | repairs every stale rectangle from a block up to the root and changes nothing else |
| `RTrees.RTree.UpdateRects` | stdb/index/rtree.h:790-793 | the same from the end of the path, also for the empty path |
| `RTrees.RTree.SplitLeaf` | stdb/index/rtree.h:332-400 | no insertion into a half fails; the entries and the new one are shared out without loss or duplicate, both returned rectangles are the bounding boxes |
| `RTrees.RTree.SplitIndex` | stdb/index/rtree.h:491-560 | the same for index blocks |
| `RTrees.RTree.CompactLeaf` | stdb/index/rtree.h:380-385 | copying entries to the front of their own block by increasing positions never overwrites one still needed |
| `RTrees.RTree.CompactIndex` | stdb/index/rtree.h:540-545 | the same for index blocks |
| `RTrees.RTree.LeafInsert` | stdb/index/rtree.h:301-310 | appends behind the live entries if and only if there is capacity |
| `RTrees.RTree.IndexInsert` | stdb/index/rtree.h:474-483 | appends behind the live entries if and only if there is capacity |
| `RTreeBlocks.FarthestPair` | stdb/index/rtree.h:333-344 | the lexicographically first pair at the largest distance |
| `RTreeBlocks.Clusters` | stdb/index/rtree.h:346-370 | the two clusters are increasing, disjoint, cover all positions and are both non-empty |
| `RTreeBlocks.DealFair` | stdb/index/rtree.h:348-363 | nobody goes to the farther seed, and ties alternate starting left |
| `RTreeBlocks.GetRect` | stdb/index/rtree.h:314-324 | the bounding box of the live entries |
| `RTreePath.SharesAll` | stdb/index/rtree.h:375-385 | subtrees picked for both halves are together all subtrees, each once |
| `RTreePath.Repair` | stdb/index/rtree.h:803-810 | storing the bounding box of the child makes the block exact |
| `RTreePath.CloseAll` | stdb/index/rtree.h:836-852 | a path without stale rectangles closes to a tree with the invariant |
| `RTreeSteps.LeafDivided` | stdb/index/rtree.h:833-834 | after a leaf split both leaves are in order and hold the old entries and the new one |
| `RTreeSteps.IndexDivided` | stdb/index/rtree.h:843-848 | after an index split both blocks are in order and hold the old children and the waiting one |
| `RTreeSteps.Absorbed` | stdb/index/rtree.h:839-842 | a block with room takes the waiting subtree |
| `RTreeSteps.RootGrown` | stdb/index/rtree.h:854-861 | two halves under a new root are a tree one level higher |
| `RTreeShape.GoodShape` | stdb/index/rtree.h:594-610 | a tree with the invariant is balanced, with the stored levels, and no block is empty or over capacity |
| `RTreeShape.GoodBox` | stdb/index/rtree.h:458-468 | every stored rectangle holds all points of its subtree and touches one on each side |
| `RTreeGeometry.RectLowerBound` | stdb/index/rtree.h:139-164 | the distance to a rectangle never exceeds the distance to a point inside it |
| `RTreeGeometry.DistMoved` | stdb/index/rtree.h:157-164 | moving one coordinate changes the distance of two points by the difference of the squares of its offsets |
| `RTreeGeometry.DistZero` | stdb/index/rtree.h:157-164 | the distance is zero if and only if the coordinates agree |
| `RTreeGeometry.DistSymmetric` | stdb/index/rtree.h:157-164 | the distance is symmetric |
| `RTreeGeometry.RectDistance` | stdb/index/rtree.h:139-151 | the distance to a rectangle is that to one of its points, and to no point of it is it smaller |
| `RTreeGeometry.RectsDistance` | stdb/index/rtree.h:170-182 | the distance of two rectangles is that of two of their points, and no two are nearer |
| `RTreeGeometry.IntersectPoint` | stdb/index/rtree.h:81-91 | true if and only if the point lies inside the closed rectangle |
| `RTreeGeometry.IntersectRect` | stdb/index/rtree.h:68-78 | true if and only if the intervals overlap in every dimension |
| `RTreeGeometry.CommonPointOverlaps` | stdb/index/rtree.h:68-91 | rectangles with a common point are never reported apart |
| `RTreeQueries.RangeQuery` | stdb/index/rtree.h:683-720 | appends exactly the payloads of the stored points inside the rectangle, each as often as stored |
| `RTreeQueries.FindLeaves` | stdb/index/rtree.h:689-708 | the leaves found hold every stored point inside the rectangle; the search ends |
| `RTreeQueries.Pruned` | stdb/index/rtree.h:696-698 | a subtree that is passed over holds no point inside the rectangle |
| `RTreeQueries.KnnQuery` | stdb/index/rtree.h:631-678 | payloads in non-decreasing distance, the squared Euclidean one of `RTreeGeometry.DistMoved`, none left out nearer than one returned, min(k, n) of them from an empty result vector (one for k = 0); the search ends |
| `RTreeQueries.LowerAll` | stdb/index/rtree.h:642-676 | the smallest key of the queue bounds the distance of every entry behind it |
| `RTreeQueries.ExpandLeaf` | stdb/index/rtree.h:653-661 | a leaf is replaced by its entries with their distances |
| `RTreeQueries.ExpandIndex` | stdb/index/rtree.h:663-675 | an index block is replaced by its children with lower bounds |
| `LogVolume.LZ4Volume.Append` | stdb/storage/input_log.cc:260-283 | written frames and current frame hold exactly the history plus the point; new frames have new, rising numbers; Overflow exactly when the file has reached its limit; the run says which page is being filled; page, file size, frames and next number are those of the step function |
| `LogVolume.LZ4Volume.AppendBlob` | stdb/storage/input_log.cc:364-392 | the same for names and recovery arrays that a page can take |
| `LogVolume.LZ4Volume.AppendName` | stdb/storage/input_log.cc:394-396 | the history grows by the name; the volume is as the step function of its value says |
| `LogVolume.LZ4Volume.AppendRecovery` | stdb/storage/input_log.cc:398-403 | the history grows by the recovery array; the volume is as the step function of its value says |
| `LogVolume.LZ4Volume.FlushCurrentFrame` | stdb/storage/input_log.cc:238-248 | the current frame goes to the file under the next number, even when empty |
| `LogVolume.LZ4Volume.RequireFrameType` | stdb/storage/input_log.cc:250-258 | the current frame has the type; a frame of another type was flushed, and that is a slip exactly when it had no rows |
| `LogVolume.LZ4Volume.Flush` | stdb/storage/input_log.cc:524-538 | everything appended is in the file |
| `LogVolume.LZ4Volume.Close` | stdb/storage/input_log.cc:228-236 | closing loses no buffered row; over every run of the volume, recovery of the file gives back every row if and only if no row met a page of another kind that was started and had no rows, and otherwise exactly the rows before the first that did |
| `LogSlips.SlippedWrite` | stdb/storage/input_log.cc:238-258 | writing a frame without rows fixes what recovery will give back; writing one with rows does not change it |
| `LogSlips.SlippedMeaning` | stdb/storage/input_log.cc:887-902 | recovery of a file is complete if and only if there was no slip with rows behind it |
| `LogSlips.TrimConcat` | stdb/storage/input_log.cc:887-902 | an empty frame ends its stream across volumes |
| `LogSlips.PageTakes` | stdb/storage/input_log.cc:296-325 | the page of the run takes a payload exactly when `can_write` says so of the bytes |
| `LogSlips.BlobPage` | stdb/storage/input_log.cc:347-361 | a payload fills the page by its length and one descriptor |
| `LogVolume.LogSequencer.Next` | stdb/storage/input_log.cc:19-21 | numbers are given out once, rising |
| `LogFrame.PointAdded` | stdb/storage/input_log.cc:266-270 | the rows of a data frame after a put are the rows before and the point |
| `LogFrame.BlobAdded` | stdb/storage/input_log.cc:347-361 | the rows of a page after a put are the rows before and the new one |
| `LogFrame.PutBlobOld` | stdb/storage/input_log.cc:347-361 | earlier payloads and descriptors are untouched |
| `LogFrame.PutBlobNew` | stdb/storage/input_log.cc:327-361 | the new descriptor gives back id and payload |
| `LogFrame.PutBlobPacked` | stdb/storage/input_log.cc:296-361 | payloads follow each other and never meet the descriptors |
| `LogFrame.LooseRoom` | stdb/storage/input_log.cc:296-325 | what `can_write` allows on a page kept open fits with its descriptor |
| `LogFrame.WordsBack` | stdb/storage/input_log.cc:335-342 | the bytes of a recovery array are read back as the array |
| `LogPages.PointLayout` | stdb/storage/input_log.cc:266-270 | the bytes of a data point: three columns of 340 words |
| `LogPages.BlobLayout` | stdb/storage/input_log.cc:347-361 | the bytes of a payload and of its descriptor: id, length and offset at the end of the page, growing downwards |
| `LogPages.PointsFill` | stdb/storage/input_log.cc:260-283 | in a run of data points every 340 make a frame |
| `LogPages.NamesFill` | stdb/storage/input_log.cc:364-392 | in a run of names of any one length: how many go into a page, counting 16 bytes for each and 16 to spare, and whether the page is written with its last name because fewer than 64 bytes are free |
| `InputLogs.InputLog.Append` | stdb/storage/input_log.cc:672-678 | reports, on overflow of a full log, the ids that only the oldest volume has; keeps the eviction invariant; the volumes as values, and whether a rotation is due, are those of the step function |
| `InputLogs.InputLog.AppendName` | stdb/storage/input_log.cc:680-686 | the same for names: on overflow of a full log exactly the ids with data points only in the oldest volume are reported, and otherwise none |
| `InputLogs.InputLog.AppendRecovery` | stdb/storage/input_log.cc:688-694 | the same for recovery arrays |
| `InputLogs.InputLog.DetectStaleIds` | stdb/storage/input_log.cc:657-670 | exactly the ids that have a data point in the run of the oldest volume and none in the run of any other |
| `InputLogs.InputLog.Flush` | stdb/storage/input_log.cc:766-789 | flushes the front volume; on overflow of a full log exactly the ids with data points only in the oldest volume are reported, and otherwise none |
| `InputLogs.InputLog.Rotate` | stdb/storage/input_log.cc:754-764 | every id with data points in a removed volume was reported or still has data points in a kept volume, over the whole run; never more volumes than the maximum; the closed volume has all its rows in its file; the new volumes and the next number are the rotation of the old ones as values |
| `InputLogs.InputLog.Close` | stdb/storage/input_log.cc:228-236 | what a reader finds of a closed log: frames numbered upwards across all volumes, of which recovery gives back a beginning of the rows kept, and all of them if and only if no run of a kept volume makes a slip |
| `InputLogs.JoinedRecovered` | stdb/storage/input_log.cc:887-902 | the same over any number of volumes |
| `LogShards.ShardedLog.Execute` | stdb/storage/input_log.cc:856-867 | a command to one shard, with rotation after an overflow, leaves all shards as the step function says and the frames of all shards apart in their numbers |
| `LogShards.ShardedLog.Close` | stdb/storage/input_log.cc:228-236 | every shard gives back what its runs say; the frames are those of the shards closed as values |
| `LogShards.StreamStep` | stdb/storage/input_log.cc:19-21 | new frames of one log have numbers that no frame of another log has |
| `LogShards.StreamsMergeable` | stdb/storage/input_log.cc:885-910 | what the merge relies on holds of the frames of any logs that share a sequencer |
| `ShardMerge.ShardedInputLog.ReadNext` | stdb/storage/input_log.cc:970-1057 | for any buffer sizes: the rows given so far are a beginning of the rows of all frames in the order of their numbers, and all of them when NoData is returned; a buffer is filled unless the data ends; BadData is not returned |
| `ShardMerge.ShardedInputLog.ChooseNext` | stdb/storage/input_log.cc:885-910 | the live buffer with the smallest number, the first one of several; -1 if and only if none is live |
| `ShardMerge.ShardedInputLog.InitReadBuffers` | stdb/storage/input_log.cc:869-883 | every stream has its first frame buffered |
| `ShardMerge.ShardedInputLog.NextBuffer` | stdb/storage/input_log.cc:1047-1053 | a finished frame is replaced and the next one chosen; nothing is lost |
| `ShardMerge.Advance` | stdb/storage/input_log.cc:912-917 | taking the smallest frame keeps the order of what was given out |
| `ShardMerge.FirstOnes` | stdb/storage/input_log.cc:885-910 | frames that precede all others are the beginning of the only ordering |
| `LogRecovery.SameOutput` | stdb/storage/input_log.cc:970-1057 | two readings to the end give the same rows whatever the buffer sizes |
| `LogRecovery.OrderExists` | stdb/storage/input_log.cc:885-910 | frames with distinct rising numbers have a global order, whose rows are the rows of the streams |
| `LogRecovery.LogAndRecover` | stdb/storage/input_log.cc:754-1057 | main theorem: any commands to any number of shards rotating through any number of volumes, then close, then merge with any buffer size. The files, and the runs of the volumes that each shard keeps, are functions of the commands and the settings; a shard keeps the end of what was sent to it, all of it while it has fewer volumes than allowed, in volumes of which all but the newest are full. The rows that come back are in the order of all frame numbers, of each shard a beginning of the rows kept; all rows that are kept come back if and only if no kept run makes a slip |
| `LogKept.KeepsEnd` | stdb/storage/input_log.cc:672-764 | what a shard keeps of any commands: the end of what was sent to it, and all of it while there are fewer volumes than allowed; every volume but the newest has reached the size limit |
| `LogKept.KeepsAll` | stdb/storage/input_log.cc:672-764 | a shard with fewer volumes than allowed keeps every row sent to it |
| `LogKept.StepSize` | stdb/storage/input_log.cc:117-148 | every append and flush keeps the counted size of a file equal to the sum of its packed frames, each with its length field |
| `LogKept.RotateKeeps` | stdb/storage/input_log.cc:754-764 | rotation after an overflow keeps all of this |
| `LogRecovery.OnePoint` | stdb/storage/input_log.cc:260-283 | a single data point sent to a log with one shard and a size limit above zero comes back, for any number of volumes and any buffer size |
| `LogRecovery.Complete` | stdb/storage/input_log.cc:970-1057 | the merged output has all rows of all shards if and only if every shard is recovered completely |
| `LogRecovery.ReadAll` | stdb/storage/input_log.cc:970-1057 | reading with any buffer size until NoData ends, with all rows in global order |
| `LogRecovery.LostPoint` | stdb/storage/input_log.cc:250-283 | concrete run: a long name and a data point, after which the written file recovers without the point |
| `BlockStore.FixedSizeFileStorage.AppendBlock` | stdb/storage/block_store.cc:203-224 | until the generation counter wraps: the address is above all addresses before, the block is recorded under it, generations never fall, and what was gone stays gone; fails only at a volume without capacity; the new state is that of the run |
| `BlockStore.FixedSizeFileStorage.HandleVolumeTransition` | stdb/storage/block_store.cc:157-189 | the next volume of the ring, empty; with capacity in both volumes the generation rises by exactly one |
| `BlockStore.FixedSizeFileStorage.ReadIovecBlock` | stdb/storage/block_store.cc:331-363 | an address reads back its own block until its volume is recycled, and is Unavailable from then on, as is any address never given out |
| `BlockStore.FixedSizeFileStorage.Exists` | stdb/storage/block_store.cc:312-329 | true if and only if a block was stored under the address and its volume was not recycled since |
| `BlockStore.FixedSizeFileStorage.constructor` | stdb/storage/block_store.cc:95-144 | volumes as they are created (stdb/core/worker_database.cc:26-39), volume i empty with generation i: the first one with room is in use |
| `BlockStore.MakeLogic` | stdb/storage/block_store.cc:191-201 | address and its two parts determine each other |
| `BlockStore.AddressOrder` | stdb/storage/block_store.cc:199-201 | addresses compare as generation and block |
| `BlockStore.RingTurns` | stdb/storage/block_store.cc:157-189 | generation mod n is the volume, and the generations follow the turns of the ring |
| `BlockStore.Transition` | stdb/storage/block_store.cc:157-189 | a transition keeps every stored block readable or recycled |
| `BlockStore.Appended` | stdb/storage/block_store.cc:203-224 | an append keeps every stored block readable or recycled |
| `BlockStore.GenerationExact` | stdb/storage/block_store.cc:157-224 | main theorem on generations: every transition of every run before the wrap raises the generation by exactly one if and only if every volume has capacity, except volumes that the counter wraps before reaching a second time; with at most 2^31 volumes, if and only if every volume has capacity |
| `BlockStore.CapaciousTurn` | stdb/storage/block_store.cc:157-189 | the transition under that condition |
| `BlockStore.FailingRun` | stdb/storage/block_store.cc:157-224 | for any other files, a run from the fresh store whose next transition does not raise the generation by one |
| `BlockStore.RunSound` | stdb/storage/block_store.cc:203-224 | every run keeps the ring in turn and every stored block readable or recycled until the counter wraps |
| `BlockStore.GenerationFalls` | stdb/storage/block_store.cc:157-189 | concrete run: four appends to volumes of one and no blocks, after which the generation falls from 2 to 1 |
| `Checksum.ChecksumOf` | stdb/storage/block_store.cc:289-302 | the CRC of the bytes the loop runs over, for either implementation; that of the flat range when the pieces reach its end |
| `Checksum.RangeCovered` | stdb/storage/block_store.cc:292-300 | the loop runs over the flat range if and only if the offset lies in the first piece and no piece before its end is empty |
| `Cursor.SizesExact` | stdb/core/cursor.cc:44-180 | main theorem: for any set of sizes of 16 bits, every run of puts, reads, completion and queries whose samples have such sizes stores every sample that there is room for, ends every read on a sample boundary, returns only when finished, nearly full or at a sample that does not fit, and is done exactly when complete and delivered, if and only if all these sizes lie between 34 and 16384 |
| `Cursor.CapacityExact` | stdb/core/cursor.cc:150-180 | without a reader, of any samples of one size from 1 to 16384 bytes exactly the first 32 * (16384 / size) are accepted |
| `Cursor.PutExact` | stdb/core/cursor.cc:155-180 | for any queue and sample: stored exactly if it has at most 16384 bytes and the last buffer has room or fewer than 32 buffers are queued; in the last buffer if that has room, otherwise at the start of a new one; all else stays |
| `Cursor.NoRoomExact` | stdb/core/cursor.cc:159-176 | so the producer waits if and only if the sample is larger than a buffer or 32 buffers are queued and the last has no room |
| `Cursor.BytesConserved` | stdb/core/cursor.cc:62-180 | in every run with samples of any size, bytes delivered followed by bytes queued are the bytes accepted, in at most 32 buffers with rdpos <= wrpos <= 16384 |
| `Cursor.BigRunsGood` | stdb/core/cursor.cc:44-180 | the good half: whole samples in order, from 34 bytes to the size of a buffer |
| `Cursor.HangsClient` | stdb/core/cursor.cc:44-60 | a run for every size from 1 to 32 in which the read never ends |
| `Cursor.StarvesClient` | stdb/core/cursor.cc:44-94 | a run for size 33 in which a read with room for both samples returns nothing |
| `Cursor.LeavesBuffer` | stdb/core/cursor.cc:96-180 | a run for size 0 and every size above 16384 that leaves an empty buffer in front, so that the cursor is never done |
| `Cursor.CopyIsLoop` | stdb/core/cursor.cc:44-60 | the copy of the specification is the loop of the source: it never ends exactly where the loop goes on for any number of iterations, and otherwise stops where the loop does |
| `Cursor.ShortSampleStuck` | stdb/core/cursor.cc:44-60 | a sample of 1 to 32 bytes in a fresh buffer: every iteration of the copy loop leaves the position at zero |
| `Cursor.HalfSizeStored` | stdb/core/cursor.cc:44-60 | a sample of 33 bytes and the next one: the first iteration takes exactly the sample if and only if the first byte of the next one is zero |
| `Cursor.CopyWhole` | stdb/core/cursor.cc:44-60 | from samples that contain their size the loop takes the longest run of whole ones that fits |
| `Cursor.ConcurrentCursor.Put` | stdb/core/cursor.cc:150-180 | refused exactly when complete, waiting exactly when there is no room; where the sample goes and what stays |
| `Cursor.ConcurrentCursor.PutLocked` | stdb/core/cursor.cc:155-180 | queue and accepted samples are those of the run, for samples of any size; the producer waits if and only if the sample is larger than a buffer or 32 buffers are queued and the last has no room; where the sample goes and what stays |
| `Cursor.ConcurrentCursor.Read` | stdb/core/cursor.cc:62-94 | the reading of the run, for samples of any size: returned, waiting, or hung in the copy loop |
| `Cursor.ConcurrentCursor.IsDone` | stdb/core/cursor.cc:96-99 | when true, everything accepted was delivered |
| `Cursor.ConcurrentCursor.Complete` | stdb/core/cursor.cc:182-185 | keeps what is queued |
| `Cursor.SampleCpy` | stdb/core/cursor.cc:44-60 | the loop equals the copy of the specification on any bytes |
| `RespParser.Serve` | stdb/protocol/protocolparser.cc:538-620 | main theorem: for every stream and every way of cutting it into chunks of at most the buffer size, the parser writes the samples and meets the error of the specification run chunk by chunk; these are those of the stream in one piece if no array follows the first message or reading on from the first that does writes nothing and throws |
| `RespStreams.StreamExact` | stdb/protocol/protocolparser.cc:538-609 | main theorem: for every stream of bytes, it is consumed to its end without an error, with these samples and this dictionary, if and only if it is dictionaries followed by messages that say so |
| `RespStreams.ServeStream` | stdb/protocol/protocolparser.cc:538-620 | such a stream, in chunks cut in any way, has the samples of its messages written, in order, and no error |
| `RespGrammar.PduExact` | stdb/protocol/protocolparser.cc:555-585 | for any bytes, position, samples and end: the reader takes a message there if and only if the bytes up to the end are a key, a timestamp and values, and the samples are, for every id of the row in order, the id, the timestamp and the value in its place |
| `RespGrammar.DictionaryExact` | stdb/protocol/protocolparser.cc:219-310 | the reader takes a dictionary if and only if the bytes are an array of names and numbers, and it defines those |
| `RespGrammar.AllDefined` | stdb/protocol/protocolparser.cc:196-204 | every number is defined by its first entry, and what was defined before stands |
| `RespGrammar.KeyExact` | stdb/protocol/protocolparser.cc:312-366 | a row is named by a series name of at most 1024 bytes or a number from the dictionary, and has at most 256 ids |
| `RespGrammar.TimeExact` | stdb/protocol/protocolparser.cc:157-194 | a timestamp is a number or a text of at most 28 bytes |
| `RespGrammar.ValuesExact` | stdb/protocol/protocolparser.cc:368-536 | values are one value for a row of one id or an array with one for every id, numbers or texts of the lengths allowed |
| `RespGrammar.NumberExact` | stdb/protocol/resp.cc:47-110 | a number is its marker, decimal digits and a line end, of at most 22 bytes and 64 bits, with the value that the digits have |
| `RespGrammar.StringExact` | stdb/protocol/resp.cc:112-143 | a text is its marker and a line, with either line end taken off |
| `RespStreams.MessageRoundTrip` | stdb/protocol/protocolparser.cc:538-609 | what is sent for a row of 1 to 256 series and events, anywhere in a stream, is written to them: every value to its id, under the timestamp sent |
| `RespStreams.DictionaryRoundTrip` | stdb/protocol/protocolparser.cc:219-310 | a dictionary that is sent defines its numbers |
| `RespStreams.WaitsBounded` | stdb/protocol/protocolparser.cc:555-574 | the parser never asks for more bytes when it has as many as the longest message |
| `RespChunks.ChunksMatterExactly` | stdb/protocol/protocolparser.cc:538-616 | from any state, with any bytes received, for chunks of at most any size from two: all ways of cutting the rest of the stream agree on samples and failure if and only if no array follows the first message, or reading on from the first that does writes nothing and throws, or that array is among the bytes received |
| `RespChunks.ChunksDoNotMatter` | stdb/protocol/protocolparser.cc:538-616 | without a late array every way of cutting ends in the same state too |
| `RespChunks.LateCuttings` | stdb/protocol/protocolparser.cc:538-616 | with a late array that fails, every way of cutting throws after the same samples |
| `RespChunks.WorkerTwice` | stdb/protocol/protocolparser.cc:538-609 | a run over a first part followed by a run over everything is one run over everything |
| `RespChunks.AtLate` | stdb/protocol/protocolparser.cc:219-310 | in one piece the parser throws at a late array; up to it all samples are written and it waits there |
| `RespChunks.LateHit` | stdb/protocol/protocolparser.cc:219-310 | with a chunk that ends right before the late array, the samples of the stream in one piece are followed by what the rest of the chunks makes of the stream from that array on |
| `RespChunks.LateSkipped` | stdb/protocol/protocolparser.cc:538-616 | without such a chunk the parser throws as in one piece |
| `RespChunks.WholeIsPrefix` | stdb/protocol/protocolparser.cc:538-616 | whatever the chunks, at least the samples of the stream in one piece are written |
| `RespChunks.LateArrayExample` | stdb/protocol/protocolparser.cc:353-363 | concrete stream, a message for series "a" and an empty dictionary, that throws in one piece and not in two |
| `RespStable.PduStable` | stdb/protocol/protocolparser.cc:555-574 | more bytes never change a message that was read or an error |
| `RespStable.PduLocal` | stdb/protocol/protocolparser.cc:555-574 | a message is read without the bytes behind it |
| `RespStable.DictionaryStable` | stdb/protocol/protocolparser.cc:235-296 | more bytes never change a dictionary that was read; one that was cut off can be read again from its start |
| `RespStable.DictionaryLocal` | stdb/protocol/protocolparser.cc:219-310 | a dictionary is read without the bytes behind it |
| `RespStable.LineStable` | stdb/protocol/protocolparser.cc:65-81 | a line or an over-long line stays what it is |
| `RespBuffer.ReadBuffer.Pull` | stdb/protocol/protocolparser.cc:120-139 | at least the buffer size is free; unconsumed bytes and positions in the stream are preserved by rotation and doubling |
| `RespBuffer.ReadBuffer.Push` | stdb/protocol/protocolparser.cc:141-145 | the stream grows by the chunk |
| `RespBuffer.ReadBuffer.ReadLine` | stdb/protocol/protocolparser.cc:65-81 | the line of the specification, or minus the bytes looked at |
| `RespBuffer.ReadBuffer.Discard` | stdb/protocol/protocolparser.cc:115-118 | back to the last complete element |
| `RespBuffer.ReadBuffer.Consume` | stdb/protocol/protocolparser.cc:110-113 | the element is final |
| `RespBuffer.ReadBuffer.Get` | stdb/protocol/protocolparser.cc:36-42 | the next byte of the stream |
| `RespBuffer.ReadIntBody` | stdb/protocol/resp.cc:47-98 | the integer of the specification: at most 20 digits, no more than 64 bits, either line ending |
| `RespBuffer.ReadText` | stdb/protocol/resp.cc:112-143 | the text of the specification |
| `RespBuffer.ReadMarked` | stdb/protocol/resp.cc:100-110 | an integer behind its marker; with the other marker an array size (lines 194-204) |
| `RespBuffer.ReadBuffer.NextKind` | stdb/protocol/resp.cc:18-45 | the kind of the next element |
| `RespParser.RESPProtocolParser.Worker` | stdb/protocol/protocolparser.cc:538-609 | one run equals the specification: samples, position, dictionary and error; `RespStreams.StreamExact` says what that is |
| `RespParser.RESPProtocolParser.ParseNext` | stdb/protocol/protocolparser.cc:611-616 | a chunk and one run |
| `RespParser.RESPProtocolParser.ParseDict` | stdb/protocol/protocolparser.cc:219-310 | equals the specification; a cut-off array is given back, its definitions stay |
| `RespParser.RESPProtocolParser.UpdateDict` | stdb/protocol/protocolparser.cc:196-204 | the first definition of a number stands |
| `RespParser.RESPProtocolParser.ParseIds` | stdb/protocol/protocolparser.cc:312-366 | equals the specification |
| `RespParser.RESPProtocolParser.ParseTimestamp` | stdb/protocol/protocolparser.cc:157-194 | equals the specification |
| `RespParser.RESPProtocolParser.ParseValues` | stdb/protocol/protocolparser.cc:368-536 | equals the specification, with the array size cut to 32 bits |
| `SeriesIndex.Index.FindIds` | stdb/index/invertedindex.h:565-589 | main theorem: for any hash function, the filtered metric query decodes to exactly the ids of the stored series with the metric, rising, each once |
| `SeriesIndex.Index.Append` | stdb/index/invertedindex.cc:775-808 | a new canonical name is added once, with a larger id; a known name changes nothing; a name without canonical form is BadData |
| `SeriesIndex.Index.Find` | stdb/index/invertedindex.cc:816-820 | query and filter give the encoded list of those ids |
| `SeriesIndex.Index.MetricQuery` | stdb/index/invertedindex.cc:816-820 | the list under the hash, collisions included |
| `SeriesIndex.Filter` | stdb/index/invertedindex.h:565-589 | exactly the ids whose stored name passes the check, in order |
| `SeriesIndex.FilterIsExact` | stdb/index/invertedindex.cc:395-409 | filtering by name takes out what only shares the hash |
| `SeriesIndex.WithMetricExact` | stdb/index/invertedindex.cc:775-808 | the ids of the series with a metric rise and are exactly those |
| `SeriesIndex.MetricOfName` | stdb/index/invertedindex.cc:73-85 | the metric of a canonical name is its part before the space |
| `SeriesIndex.InvertedIndex.Add` | stdb/index/invertedindex.cc:351-361 | the list under the key grows by the value, all others stay |
| `SeriesIndex.InvertedIndex.Extract` | stdb/index/invertedindex.cc:372-379 | the list under the key, empty if there is none |
| `PostingList.CompressedPList.Add` | stdb/index/invertedindex.cc:236-240 | the encoded list grows by the id |
| `PostingList.PListIterator.Advance` | stdb/index/invertedindex.cc:175-181 | the iterator steps to the next id without a read error |
| `PostingList.Decode` | stdb/index/invertedindex.cc:125-181 | iterating gives back the ids added |
| `PostingList.SmallGaps` | stdb/index/invertedindex.cc:236-240 | ids less than 128 apart take one byte each |
| `PostingList.PutNumber` | stdb/index/invertedindex.h:108-122 | writes the base-128 bytes |
| `PostingList.GetNumber` | stdb/index/invertedindex.h:83-103 | reads them back, or nothing when the bytes end |
| `StringPools.StringPool.Add` | stdb/index/stringpool.cc:129-157 | ids rise strictly; the string is stored in the last bin if it fits into 16 MB with its zero and in a new one otherwise, and the id is bin and offset; the empty string gets 0 |
| `StringPools.StringPool.StrOfStored` | stdb/index/stringpool.cc:159-172 | a stored string is found again if and only if it is free of zero bytes, and up to its first zero otherwise |

## Left out

- RoundTrip.WriteThenRead: blocks shorter than the 14-byte header are not modelled; the source stops the process there.
- DataBlock.DataBlockWriter.Put: a half-written tail pair (8 to 15 bytes free) is modelled as it is, the position moves and nothing is counted.
- LogVolume.LZ4Volume.AppendBlob: payloads of more than 8152 bytes, for which the invariant that the source states for its frames (`can_write`, stdb/storage/input_log.cc:344-346) cannot hold on any page, are excluded.
- LogVolume.LZ4Volume.AppendName: names of more than 8152 bytes, for the same reason; the parser of series names refuses more than 4096 bytes.
- LogVolume.LZ4Volume.AppendRecovery: arrays of more than 1019 words, for the same reason.
- LogVolume.LZ4Volume.Append: write errors of the file are not modelled.
- InputLogs.InputLog.Rotate: stated for callers that rotate after every overflow and only then; the order in which stale ids are listed is not modelled.
- ShardMerge.ShardedInputLog.ReadNext: frames before the first empty one of each stream must be well formed, with rising numbers that are distinct across streams, which `LogShards.StreamsMergeable` shows of what the writers make; read errors are not modelled.
- BlockStore.FixedSizeFileStorage.AppendBlock: nothing is stated after the 32-bit generation counter has wrapped.
- Cursor.ConcurrentCursor.PutLocked: a step is one section under the lock; fairness and time-outs are not modelled.
- RespParser.Serve: a database that refuses a sample is not modelled.
- RespBuffer.ReadText: an empty text is given an empty value; the source looks at the byte before its buffer there.
- RespParser.RESPProtocolParser.ParseValues: an integer sent to an event series repeats the event text left from an earlier message; the model marks such a value instead of keeping the text.
- SeriesIndex.Index.Append: canonical names without zero bytes, which are the ones the pool finds again (`StringPools.StringPool.StrOfStored`), and fewer than 2^32 - 16 bins in the pool.
- RTreeQueries.KnnQuery: the tree must not be empty, which the source takes for granted.
- LogFrame.PutBlob: frame bytes are a sequence of fixed length that the volume reassigns, not an array.
- The single-value tails of the streams (`put` and `commit` of the stream writers): the block writer only uses whole chunks.
- Base-128 numbers of more than ten bytes in the input of the readers, where the source shifts by 64 or more.
- The block writers and readers over `IOVecBlock`: same layout, other byte container.
- R-tree statistics and locks; floating point rounding of distances.
- Reading a volume row by row without the merge, and reopening a log or a block store.
- The expandable block store, the memory store and the block cache.
- Tag queries, the filter with several values, set operations on posting lists, topology and the count-min sketch.
- Bulk strings of RESP, error texts, and the OpenTSDB protocol.
- Query processing, tree storage, metadata, networking and client code.
