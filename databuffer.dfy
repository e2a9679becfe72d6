/** The device's data buffer: how `_writeDataBuffer` cuts a blob into
    blocks and how `_getData` gathers it back, stated as the commands each
    one sends and the result it gives on a given device state. */
module DataBuffer {
  import opened Wrappers
  import opened Bytes
  import opened Apdu
  import opened Transport

  const NOT_EMPTY_MESSAGE := "Command not Allowed: Ledger state is not 'Empty'"
  const INVALID_DATA_MESSAGE := "Invalid data passed to Ledger device"

  function Min(a: int, b: int): int { if a <= b then a else b }

  // ---------------------------------------------------------------------
  // Block counts, computed on JS numbers

  /** `blocksNeeded` in `_writeDataBuffer`: `len / blockSize` on JS
      numbers, plus one when the length is not a multiple of the block. */
  function BlocksNeeded(len: nat, blockSize: nat): real
    requires blockSize > 0
  {
    len as real / blockSize as real + (if len % blockSize != 0 then 1.0 else 0.0)
  }

  /** The number of blocks the upload writes: every integer `block` with
      `block < blocksNeeded`. A length that is not a multiple of the block
      gets two more blocks than the whole ones, the last of them empty. */
  function WriteCount(len: nat, blockSize: nat): nat
    requires blockSize > 0
  {
    if len % blockSize == 0 then len / blockSize else len / blockSize + 2
  }

  /** The number of blocks a download reads: `ceil(len / blockSize)`. */
  function ReadCount(len: nat, blockSize: nat): nat
    requires blockSize > 0
  {
    if len % blockSize == 0 then len / blockSize else len / blockSize + 1
  }

  /** `Math.ceil` on a JS number. */
  function Ceil(x: real): int
  {
    if x.Floor as real == x then x.Floor else x.Floor + 1
  }

  lemma Quotient(len: nat, blockSize: nat)
    requires blockSize > 0
    ensures len as real / blockSize as real
         == (len / blockSize) as real + (len % blockSize) as real / blockSize as real
    ensures 0.0 <= (len % blockSize) as real / blockSize as real < 1.0
    ensures len % blockSize != 0 ==> 0.0 < (len % blockSize) as real / blockSize as real
  {
    var q, r := len / blockSize, len % blockSize;
    assert len == q * blockSize + r;
    assert len as real == q as real * blockSize as real + r as real;
  }

  /** The upload loop's test `block < blocksNeeded` holds for exactly the
      first `WriteCount` block numbers. */
  lemma WriteLoopBound(len: nat, blockSize: nat, block: nat)
    requires blockSize > 0
    ensures (block as real < BlocksNeeded(len, blockSize)) <==> block < WriteCount(len, blockSize)
  {
    Quotient(len, blockSize);
  }

  /** The capacity test `blocksNeeded > dataBlockCount` fails exactly when
      every block the loop will write fits. */
  lemma CapacityTest(len: nat, blockSize: nat, count: nat)
    requires blockSize > 0
    ensures (BlocksNeeded(len, blockSize) > count as real) <==> WriteCount(len, blockSize) > count
  {
    Quotient(len, blockSize);
  }

  /** The download's `Math.ceil(len / blockSize)` is the least number of
      blocks that holds `len` bytes. */
  lemma ReadCountIsCeiling(len: nat, blockSize: nat)
    requires blockSize > 0
    ensures Ceil(len as real / blockSize as real) == ReadCount(len, blockSize)
    ensures ReadCount(len, blockSize) * blockSize >= len
    ensures ReadCount(len, blockSize) == 0 || (ReadCount(len, blockSize) - 1) * blockSize < len
  {
    Quotient(len, blockSize);
    var q, r := len / blockSize, len % blockSize;
    var x := len as real / blockSize as real;
    assert x == q as real + r as real / blockSize as real;
    assert x.Floor == q;
    assert len == q * blockSize + r;
    if r != 0 {
      assert (q + 1) * blockSize == q * blockSize + blockSize;
    }
  }

  /** A block before the last one ends inside a buffer of `blocks` blocks. */
  lemma BlockWithin(block: nat, blocks: nat, blockSize: nat)
    requires block < blocks
    ensures (block + 1) * blockSize == block * blockSize + blockSize <= blocks * blockSize
  {
    var rest := blocks - (block + 1);
    assert blocks * blockSize == (block + 1) * blockSize + rest * blockSize;
  }

  /** The upload writes every block the download reads, and one more when
      the length is not a multiple of the block. */
  lemma ReadWithinWritten(len: nat, blockSize: nat)
    requires blockSize > 0
    ensures ReadCount(len, blockSize) <= WriteCount(len, blockSize)
    ensures len % blockSize != 0 ==> WriteCount(len, blockSize) == ReadCount(len, blockSize) + 1
    ensures len % blockSize == 0 ==> WriteCount(len, blockSize) == ReadCount(len, blockSize)
  {
  }

  // ---------------------------------------------------------------------
  // Upload

  /** `Buffer.slice(from, to)`: both ends clamped to the buffer. */
  function Slice(data: seq<byte>, from: nat, to: nat): (r: seq<byte>)
    ensures |r| == if from <= to then Min(to, |data|) - Min(from, |data|) else 0
  {
    var lo, hi := Min(from, |data|), Min(to, |data|);
    if lo <= hi then data[lo..hi] else []
  }

  /** The slice holds the data from `from` on. */
  lemma SliceBytes(data: seq<byte>, from: nat, to: nat)
    ensures forall j :: 0 <= j < |Slice(data, from, to)| ==> from + j < |data| && Slice(data, from, to)[j] == data[from + j]
  {
    var r := Slice(data, from, to);
    if |r| > 0 {
      assert from < to && from < |data|;
      assert r == data[from..Min(to, |data|)];
    }
  }

  /** Where block `block` starts in the data: `block * blockSize`. */
  function BlockStart(block: nat, blockSize: nat): nat
  {
    block * blockSize
  }

  /** The block `block` as `_writeDataBuffer` sends it: its slice of the
      data, zero-padded to `blockSize` bytes. */
  function PaddedBlock(data: seq<byte>, block: nat, blockSize: nat): (r: seq<byte>)
    ensures |r| == blockSize
  {
    // `(block + 1) * blockSize` is written as the start plus one block
    var start := BlockStart(block, blockSize);
    var chunk := Slice(data, start, start + blockSize);
    if |chunk| < blockSize then chunk + Zeros(blockSize - |chunk|) else chunk
  }

  /** Each block is exactly `blockSize` bytes: the data at its offset,
      then zeros past the end of the data. */
  lemma PaddedBlockBytes(data: seq<byte>, block: nat, blockSize: nat)
    ensures |PaddedBlock(data, block, blockSize)| == blockSize
    ensures forall j :: 0 <= j < blockSize ==>
      PaddedBlock(data, block, blockSize)[j] == ByteAt(data, BlockStart(block, blockSize) + j)
  {
    var start := BlockStart(block, blockSize);
    var chunk := Slice(data, start, start + blockSize);
    SliceBytes(data, start, start + blockSize);
    var r := PaddedBlock(data, block, blockSize);
    assert |chunk| <= blockSize;
    forall j | 0 <= j < blockSize
      ensures r[j] == ByteAt(data, start + j)
    {
      if j >= |chunk| {
        assert start + j >= |data|;
      }
    }
  }

  function ClearCommand(): Command
  {
    AppCommand(INS_CLEAR_DATA_BUFFER, 0, 0, [], TIMEOUT_CMD_NON_USER_INTERACTION)
  }

  function StateCommand(): Command
  {
    AppCommand(INS_GET_DATA_BUFFER_STATE, 0, 0, [], TIMEOUT_CMD_NON_USER_INTERACTION)
  }

  /** `_writeDataBlock(block, data)` of the IOTA app. */
  function WriteBlockCommand(block: int, data: seq<byte>): Command
  {
    AppCommand(INS_WRITE_DATA_BLOCK, block, 0, data, TIMEOUT_CMD_USER_INTERACTION)
  }

  function ReadBlockCommand(block: int): Command
  {
    AppCommand(INS_READ_DATA_BLOCK, block, 0, [], TIMEOUT_CMD_NON_USER_INTERACTION)
  }

  /** The write commands of an upload, block by block. */
  function WriteFrames(data: seq<byte>, blockSize: nat): (r: seq<Command>)
    requires blockSize > 0
    ensures |r| == WriteCount(|data|, blockSize)
  {
    seq(WriteCount(|data|, blockSize), b requires 0 <= b => WriteBlockCommand(b, PaddedBlock(data, b, blockSize)))
  }

  /** Frame `block` of an upload writes that block, padded. */
  lemma WriteFrameAt(data: seq<byte>, blockSize: nat, block: nat)
    requires blockSize > 0 && block < WriteCount(|data|, blockSize)
    ensures WriteFrames(data, blockSize)[block] == WriteBlockCommand(block, PaddedBlock(data, block, blockSize))
  {
  }

  /** `_writeDataBuffer(data)` run against device state `s`, the Empty
      data type being `emptyType`. */
  function Upload(s: DeviceState, data: seq<byte>, emptyType: int): Outcome<()>
  {
    var answer := Respond(s, ClearCommand());
    if answer.Err? then Outcome([ClearCommand()], Err(answer.error))
    else
      var rest := UploadAfterClear(Apply(s, ClearCommand()), data, emptyType);
      Outcome([ClearCommand()] + rest.commands, rest.result)
  }

  /** The upload once the buffer has been cleared: the state query, then
      the checks and the writes. */
  function UploadAfterClear(s: DeviceState, data: seq<byte>, emptyType: int): Outcome<()>
  {
    var answer := Respond(s, StateCommand());
    if answer.Err? then Outcome([StateCommand()], Err(answer.error))
    else
      var rest := WriteBlocks(Apply(s, StateCommand()), DecodeBufferState(answer.value), data, emptyType);
      Outcome([StateCommand()] + rest.commands, rest.result)
  }

  /** The upload once the buffer state `st` is known. */
  function WriteBlocks(s: DeviceState, st: BufferState, data: seq<byte>, emptyType: int): Outcome<()>
  {
    var bs := st.dataBlockSize;
    if st.dataType != emptyType then Outcome([], Err(Thrown(NOT_EMPTY_MESSAGE)))
    // a block size of 0 makes blocksNeeded NaN for no data, Infinity otherwise
    else if bs == 0 then
      if |data| == 0 then Outcome([], Ok(())) else Outcome([], Err(Thrown(INVALID_DATA_MESSAGE)))
    else if WriteCount(|data|, bs) > st.dataBlockCount then Outcome([], Err(Thrown(INVALID_DATA_MESSAGE)))
    else
      var frames := WriteFrames(data, bs);
      if |frames| > 0 && Respond(s, frames[0]).Err? then Outcome([frames[0]], Err(Respond(s, frames[0]).error))
      else Outcome(frames, Ok(()))
  }

  /** Every upload starts by clearing the buffer and querying its state. */
  lemma UploadStartsWithClear(s: DeviceState, data: seq<byte>, emptyType: int)
    ensures var cs := Upload(s, data, emptyType).commands;
      |cs| >= 1 && cs[0] == ClearCommand()
      && (|cs| >= 2 ==> cs[1] == StateCommand())
  {
  }

  /** When the device accepts the commands and reports an Empty buffer with
      room for the blocks, the upload succeeds and sends exactly the padded
      blocks 0, 1, ... after the clear and the query. */
  lemma UploadAccepted(s: DeviceState, data: seq<byte>, emptyType: int)
    requires 0 <= emptyType < 0x100 && s.emptyType == emptyType
    requires INS_CLEAR_DATA_BUFFER !in s.refused && INS_GET_DATA_BUFFER_STATE !in s.refused
    requires INS_WRITE_DATA_BLOCK !in s.refused
    requires s.blockSize > 0 && WriteCount(|data|, s.blockSize) <= s.blockCount
    ensures Upload(s, data, emptyType).result == Ok(())
    ensures Upload(s, data, emptyType).commands == [ClearCommand(), StateCommand()] + WriteFrames(data, s.blockSize)
  {
    var s1 := Apply(s, ClearCommand());
    BufferStateRoundTrip(ReportedState(s1));
  }

  /** A buffer that is not Empty after the clear, or too small for the
      data, makes the upload throw before any block is written. */
  lemma UploadRefusedByState(s: DeviceState, data: seq<byte>, emptyType: int)
    requires INS_CLEAR_DATA_BUFFER !in s.refused && INS_GET_DATA_BUFFER_STATE !in s.refused
    requires s.emptyType != emptyType
      || (s.blockSize > 0 && WriteCount(|data|, s.blockSize) > s.blockCount)
      || (s.blockSize == 0 && |data| > 0)
    ensures Upload(s, data, emptyType).result.Err?
    ensures Upload(s, data, emptyType).commands == [ClearCommand(), StateCommand()]
  {
    var s1 := Apply(s, ClearCommand());
    BufferStateRoundTrip(ReportedState(s1));
  }

  /** When the length is not a multiple of the block, the last block the
      upload writes holds no data: it is all zeros. */
  lemma TrailingBlockIsEmpty(data: seq<byte>, blockSize: nat)
    requires blockSize > 0 && |data| % blockSize != 0
    ensures var frames := WriteFrames(data, blockSize);
      |frames| >= 2 && frames[|frames| - 1].data == Zeros(blockSize)
  {
    var q := |data| / blockSize;
    var frames := WriteFrames(data, blockSize);
    assert |data| < BlockStart(q + 1, blockSize) by {
      assert |data| == q * blockSize + |data| % blockSize;
      assert (q + 1) * blockSize == q * blockSize + blockSize;
    }
    assert frames[|frames| - 1].data == PaddedBlock(data, q + 1, blockSize);
    PaddedBlockBytes(data, q + 1, blockSize);
    var last := frames[|frames| - 1].data;
    forall j | 0 <= j < blockSize
      ensures last[j] == Zeros(blockSize)[j]
    {
      assert BlockStart(q + 1, blockSize) + j >= |data|;
    }
  }

  /** The blocks a device holds after the clear and the first `j` writes
      of an upload: exactly blocks 0 .. j-1, each the padded slice. */
  ghost predicate HoldsBlocks(t: DeviceState, data: seq<byte>, blockSize: nat, j: nat)
  {
    (forall b :: b in t.blocks <==> 0 <= b < j)
    && (forall b :: 0 <= b < j ==> t.blocks[b] == PaddedBlock(data, b, blockSize))
  }

  /** Writes of blocks 0, 1, ... in that order. */
  ghost predicate WritesInOrder(cs: seq<Command>)
  {
    forall b :: 0 <= b < |cs| ==> cs[b].ins == INS_WRITE_DATA_BLOCK && cs[b].p1 == b
  }

  lemma {:induction false} WritesStored(t: DeviceState, cs: seq<Command>)
    requires t.blocks == map[] && INS_WRITE_DATA_BLOCK !in t.refused && WritesInOrder(cs)
    ensures var u := ApplyAll(t, cs);
      (forall b :: b in u.blocks <==> 0 <= b < |cs|)
      && (forall b :: 0 <= b < |cs| ==> u.blocks[b] == cs[b].data)
      && u.dataLength == t.dataLength && u.dataType == t.dataType
    decreases |cs|
  {
    if |cs| > 0 {
      var init := cs[..|cs| - 1];
      assert WritesInOrder(init);
      WritesStored(t, init);
    }
  }

  /** The clear and the query leave an empty buffer of the Empty type. */
  lemma PreludeState(s: DeviceState)
    requires INS_CLEAR_DATA_BUFFER !in s.refused
    ensures ApplyAll(s, [ClearCommand(), StateCommand()]) == s.(dataLength := 0, dataType := s.emptyType, blocks := map[])
  {
    var cleared := s.(dataLength := 0, dataType := s.emptyType, blocks := map[]);
    assert [ClearCommand(), StateCommand()][..1] == [ClearCommand()];
    assert ApplyAll(s, [ClearCommand()]) == Apply(ApplyAll(s, []), ClearCommand()) == cleared;
    assert Apply(cleared, StateCommand()) == cleared;
  }

  /** The device state after a successful upload holds every written block. */
  lemma UploadStoresBlocks(s: DeviceState, data: seq<byte>, emptyType: int)
    requires 0 <= emptyType < 0x100 && s.emptyType == emptyType
    requires INS_CLEAR_DATA_BUFFER !in s.refused && INS_GET_DATA_BUFFER_STATE !in s.refused
    requires INS_WRITE_DATA_BLOCK !in s.refused
    requires s.blockSize > 0 && WriteCount(|data|, s.blockSize) <= s.blockCount
    ensures var t := ApplyAll(s, Upload(s, data, emptyType).commands);
      HoldsBlocks(t, data, s.blockSize, WriteCount(|data|, s.blockSize))
      && t.dataLength == 0 && t.dataType == emptyType
  {
    UploadAccepted(s, data, emptyType);
    var prelude := [ClearCommand(), StateCommand()];
    var frames := WriteFrames(data, s.blockSize);
    assert Upload(s, data, emptyType).commands == prelude + frames;
    ApplyAllAppend(s, prelude, frames);
    PreludeState(s);
    var t0 := ApplyAll(s, prelude);
    FramesInOrder(data, s.blockSize);
    WritesStored(t0, frames);
    var t := ApplyAll(t0, frames);
    assert HoldsBlocks(t, data, s.blockSize, |frames|);
  }

  /** The frames of an upload write blocks 0, 1, ... with the padded blocks. */
  lemma FramesInOrder(data: seq<byte>, blockSize: nat)
    requires blockSize > 0
    ensures var frames := WriteFrames(data, blockSize);
      WritesInOrder(frames)
      && forall b :: 0 <= b < |frames| ==> frames[b].data == PaddedBlock(data, b, blockSize)
  {
    var frames := WriteFrames(data, blockSize);
    forall b | 0 <= b < |frames|
      ensures frames[b].ins == INS_WRITE_DATA_BLOCK && frames[b].p1 == b
      ensures frames[b].data == PaddedBlock(data, b, blockSize)
    {
      WriteFrameAt(data, blockSize, b);
    }
  }

  // ---------------------------------------------------------------------
  // Download

  /** The bytes of blocks 0 .. n-1 as `_readDataBlock` decodes them from
      the device's answers, laid end to end. */
  function Gathered(s: DeviceState, n: nat, blockSize: nat): (r: seq<byte>)
    ensures |r| == n * blockSize
  {
    if n == 0 then [] else Gathered(s, n - 1, blockSize) + DecodeBlock(StoredBlock(s, n - 1), blockSize)
  }

  function ReadFrames(n: nat): (r: seq<Command>)
    ensures |r| == n
    ensures forall i :: 0 <= i < n ==> r[i] == ReadBlockCommand(i)
  {
    seq(n, i requires 0 <= i => ReadBlockCommand(i))
  }

  /** `_getData()` run against device state `s`: the state query, one read
      per block, and the first `dataLength` bytes of what was read. */
  function Download(s: DeviceState): Outcome<seq<byte>>
  {
    var answer := Respond(s, StateCommand());
    if answer.Err? then Outcome([StateCommand()], Err(answer.error))
    else
      var rest := ReadBlocks(s, DecodeBufferState(answer.value));
      Outcome([StateCommand()] + rest.commands, rest.result)
  }

  /** The reads of a download once the buffer state `st` is known. */
  function ReadBlocks(s: DeviceState, st: BufferState): Outcome<seq<byte>>
  {
    var len, bs := st.dataLength, st.dataBlockSize;
    // a block size of 0: no blocks for no data; otherwise `i < Infinity`
    // holds for ever, so the reads go on until the device refuses one, and
    // the first read is refused or answered like every later one
    if bs == 0 then
      if len == 0 then Outcome([], Ok([]))
      else
        var first := Respond(s, ReadBlockCommand(0));
        Outcome([ReadBlockCommand(0)], if first.Err? then Err(first.error) else Err(Diverges))
    else
      var n := ReadCount(len, bs);
      if n > 0 && Respond(s, ReadBlockCommand(0)).Err? then
        Outcome([ReadBlockCommand(0)], Err(Respond(s, ReadBlockCommand(0)).error))
      else
        ReadCountIsCeiling(len, bs);
        Outcome(ReadFrames(n), Ok(Gathered(s, n, bs)[..len]))
  }

  /** A download never changes the device. */
  lemma {:induction false} ReadsChangeNothing(s: DeviceState, n: nat)
    ensures ApplyAll(s, ReadFrames(n)) == s
  {
    if n > 0 {
      ReadsChangeNothing(s, n - 1);
      assert ReadFrames(n) == ReadFrames(n - 1) + [ReadBlockCommand(n - 1)];
      ApplyAllSnoc(s, ReadFrames(n - 1), ReadBlockCommand(n - 1));
    }
  }

  /** The reads of a download when the device answers them. */
  lemma ReadBlocksAccepted(s: DeviceState, st: BufferState)
    requires st.dataBlockSize > 0
    requires ReadCount(st.dataLength, st.dataBlockSize) > 0 ==> INS_READ_DATA_BLOCK !in s.refused
    ensures var n := ReadCount(st.dataLength, st.dataBlockSize);
      n * st.dataBlockSize >= st.dataLength
      && ReadBlocks(s, st) == Outcome(ReadFrames(n), Ok(Gathered(s, n, st.dataBlockSize)[..st.dataLength]))
  {
    ReadCountIsCeiling(st.dataLength, st.dataBlockSize);
  }

  /** A block size of 0 with data to read: the first read is sent, and a
      refusal of it is thrown as the device error, while an answer keeps
      the loop reading for ever. */
  lemma ZeroBlockSizeReads(s: DeviceState, st: BufferState)
    requires st.dataBlockSize == 0 && st.dataLength > 0
    ensures ReadBlocks(s, st).commands == [ReadBlockCommand(0)]
    ensures INS_READ_DATA_BLOCK in s.refused ==>
      ReadBlocks(s, st).result == Err(DeviceError(s.refused[INS_READ_DATA_BLOCK]))
    ensures INS_READ_DATA_BLOCK !in s.refused ==> ReadBlocks(s, st).result == Err(Diverges)
  {
    RespondRefusal(s, ReadBlockCommand(0));
  }

  lemma DownloadChangesNothing(s: DeviceState)
    ensures ApplyAll(s, Download(s).commands) == s
  {
    var cs := Download(s).commands;
    assert ApplyAll(s, [StateCommand()]) == Apply(ApplyAll(s, []), StateCommand());
    if |cs| == 2 {
      assert cs == [StateCommand()] + [ReadBlockCommand(0)];
      ApplyAllAppend(s, [StateCommand()], [ReadBlockCommand(0)]);
      assert ApplyAll(s, [ReadBlockCommand(0)]) == Apply(ApplyAll(s, []), ReadBlockCommand(0));
    } else if |cs| > 2 {
      var st := DecodeBufferState(Respond(s, StateCommand()).value);
      var n := ReadCount(st.dataLength, st.dataBlockSize);
      assert cs == [StateCommand()] + ReadFrames(n);
      ApplyAllAppend(s, [StateCommand()], ReadFrames(n));
      ReadsChangeNothing(s, n);
    }
  }

  /** A download returns exactly `dataLength` bytes. */
  lemma DownloadLength(s: DeviceState)
    requires Download(s).result.Ok?
    ensures |Download(s).result.value| == s.dataLength
  {
    var answer := Respond(s, StateCommand());
    assert answer == Ok(EncodeBufferState(ReportedState(s)));
    BufferStateRoundTrip(ReportedState(s));
    var st := DecodeBufferState(answer.value);
    assert st == ReportedState(s);
    assert Download(s).result == ReadBlocks(s, st).result;
    ReadBlocksLength(s, st);
  }

  /** The reads give back exactly the reported number of bytes. */
  lemma ReadBlocksLength(s: DeviceState, st: BufferState)
    requires ReadBlocks(s, st).result.Ok?
    ensures |ReadBlocks(s, st).result.value| == st.dataLength
  {
    if st.dataBlockSize > 0 {
      ReadCountIsCeiling(st.dataLength, st.dataBlockSize);
    }
  }

  /** The data `data` zero-extended to `m` bytes. */
  function ZeroExtended(data: seq<byte>, m: nat): (r: seq<byte>)
    ensures |r| == m
  {
    seq(m, i requires 0 <= i => ByteAt(data, i))
  }

  /** Zero-extending one block further appends that block's padded slice. */
  lemma ExtendByBlock(data: seq<byte>, block: nat, blockSize: nat, base: nat)
    requires base == BlockStart(block, blockSize)
    ensures ZeroExtended(data, base + blockSize) == ZeroExtended(data, base) + PaddedBlock(data, block, blockSize)
  {
    PaddedBlockBytes(data, block, blockSize);
    var padded := PaddedBlock(data, block, blockSize);
    var whole := ZeroExtended(data, base + blockSize);
    forall i | 0 <= i < base + blockSize
      ensures (ZeroExtended(data, base) + padded)[i] == whole[i]
    {
      if i >= base {
        assert padded[i - base] == ByteAt(data, base + (i - base));
      }
    }
  }

  lemma ZeroExtendedPrefix(data: seq<byte>, m: nat)
    requires m >= |data|
    ensures ZeroExtended(data, m)[..|data|] == data
  {
    assert forall i :: 0 <= i < |data| ==> ZeroExtended(data, m)[i] == data[i];
  }

  lemma {:induction false} GatheredPadded(s: DeviceState, data: seq<byte>, blockSize: nat, n: nat, j: nat)
    requires blockSize > 0 && n <= j && HoldsBlocks(s, data, blockSize, j)
    ensures Gathered(s, n, blockSize) == ZeroExtended(data, n * blockSize)
  {
    if n > 0 {
      var base := BlockStart(n - 1, blockSize);
      var padded := PaddedBlock(data, n - 1, blockSize);
      calc {
        Gathered(s, n, blockSize);
        Gathered(s, n - 1, blockSize) + DecodeBlock(StoredBlock(s, n - 1), blockSize);
        { GatheredPadded(s, data, blockSize, n - 1, j);
          HeldBlockDecodes(s, data, blockSize, n - 1, j); }
        ZeroExtended(data, base) + padded;
        { ExtendByBlock(data, n - 1, blockSize, base); }
        ZeroExtended(data, base + blockSize);
        { NextBlockStart(n, blockSize); }
        ZeroExtended(data, n * blockSize);
      }
    }
  }

  lemma NextBlockStart(n: nat, blockSize: nat)
    requires n > 0
    ensures n * blockSize == BlockStart(n - 1, blockSize) + blockSize
  {
  }

  /** A block the device holds reads back as its padded slice. */
  lemma HeldBlockDecodes(s: DeviceState, data: seq<byte>, blockSize: nat, b: nat, j: nat)
    requires b < j && HoldsBlocks(s, data, blockSize, j)
    ensures DecodeBlock(StoredBlock(s, b), blockSize) == PaddedBlock(data, b, blockSize)
  {
    var padded := PaddedBlock(data, b, blockSize);
    assert StoredBlock(s, b) == padded;
    assert padded[..blockSize] == padded;
  }

  /** A device that holds the padded blocks of `data` and reports its
      length hands `data` back to a download. */
  lemma DownloadOfHeldBlocks(u: DeviceState, data: seq<byte>, j: nat)
    requires INS_GET_DATA_BUFFER_STATE !in u.refused && INS_READ_DATA_BLOCK !in u.refused
    requires u.blockSize > 0 && u.dataLength == |data|
    requires ReadCount(|data|, u.blockSize) <= j && HoldsBlocks(u, data, u.blockSize, j)
    ensures Download(u).result == Ok(data)
  {
    var bs := u.blockSize;
    BufferStateRoundTrip(ReportedState(u));
    assert Respond(u, StateCommand()) == Ok(EncodeBufferState(ReportedState(u)));
    var n := ReadCount(|data|, bs);
    ReadCountIsCeiling(|data|, bs);
    GatheredPadded(u, data, bs, n, j);
    ZeroExtendedPrefix(data, n * bs);
    assert ReadBlocks(u, ReportedState(u)).result == Ok(data);
  }

  /** Uploading a blob and reading it back from a device that reports its
      length gives the blob: the bytes `_getData` returns are the bytes
      `_writeDataBuffer` sent. */
  lemma UploadThenDownload(s: DeviceState, data: seq<byte>, emptyType: int)
    requires 0 <= emptyType < 0x100 && s.emptyType == emptyType
    requires INS_CLEAR_DATA_BUFFER !in s.refused && INS_GET_DATA_BUFFER_STATE !in s.refused
    requires INS_WRITE_DATA_BLOCK !in s.refused && INS_READ_DATA_BLOCK !in s.refused
    requires s.blockSize > 0 && WriteCount(|data|, s.blockSize) <= s.blockCount
    requires |data| < 0x1_0000
    ensures Download(ApplyAll(s, Upload(s, data, emptyType).commands).(dataLength := |data|)).result == Ok(data)
  {
    UploadStoresBlocks(s, data, emptyType);
    var t := ApplyAll(s, Upload(s, data, emptyType).commands);
    ReadWithinWritten(|data|, s.blockSize);
    DownloadOfHeldBlocks(t.(dataLength := |data|), data, WriteCount(|data|, s.blockSize));
  }
}
