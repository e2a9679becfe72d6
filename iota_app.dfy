/** The IOTA Ledger app client, `hw-app-iota`: the path check, one
    method per device command, the block-buffer transfers and the address
    query, all sending through a `Transport.Device`. */
module IotaHw {
  import opened Wrappers
  import opened Bytes
  import opened Text
  import opened Apdu
  import opened Transport
  import opened DataBuffer

  /** BIP-0032's first hardened index, the value of the segment "0'". */
  const HARDENED: uint32 := 0x8000_0000

  const INCORRECT_P1P2 := "packable error: IncorrectP1P2"

  /** The values the app takes from its `./constants` module, which is not
      part of this model: the app modes, the Empty data type and the flows. */
  datatype Constants = Constants(
    modeIotaStardust: byte,
    modeShimmer: byte,
    emptyDataType: byte,
    flowMainMenu: byte,
    flowGeneratingAddresses: byte,
    flowGenericError: byte,
    flowRejected: byte,
    flowSignedSuccessfully: byte,
    flowSigning: byte)

  // ---------------------------------------------------------------------
  // Paths

  /** Every segment equal to 0 promoted to the hardened index. */
  function Harden(segments: seq<uint32>): (r: seq<uint32>)
    ensures |r| == |segments|
    ensures forall i :: 0 <= i < |r| ==> r[i] == (if segments[i] == 0 then HARDENED else segments[i])
  {
    seq(|segments|, i requires 0 <= i < |segments| => if segments[i] == 0 then HARDENED else segments[i])
  }

  /** What `_validatePath` accepts and returns: a 5-level path with bare
      zeros hardened, a 3-level path extended by two hardened zeros. */
  function NormalisedPath(parsed: Parsed): (r: Result<seq<uint32>>)
    ensures r.Ok? <==> parsed.Parsed? && (|parsed.segments| == 3 || |parsed.segments| == 5)
    ensures r.Ok? ==> |r.value| == 5
    ensures r.Ok? ==> forall i :: 0 <= i < |parsed.segments| ==>
      r.value[i] == (if parsed.segments[i] == 0 then HARDENED else parsed.segments[i])
    ensures r.Ok? && |parsed.segments| == 3 ==> r.value[3] == HARDENED && r.value[4] == HARDENED
    ensures parsed.ParseError? ==> r == Err(Thrown(PATH_INVALID + parsed.message))
    ensures parsed.Parsed? && |parsed.segments| != 3 && |parsed.segments| != 5 ==>
      r == Err(Thrown(PATH_INVALID + "Invalid path length: " + NatToDecimal(|parsed.segments|)))
  {
    match parsed
    case ParseError(message) => Err(Thrown(PATH_INVALID + message))
    case Parsed(segments) =>
      if |segments| == 3 then Ok(Harden(segments + [HARDENED, HARDENED]))
      else if |segments| == 5 then Ok(Harden(segments))
      else Err(Thrown(PATH_INVALID + "Invalid path length: " + NatToDecimal(|segments|)))
  }

  /** `Iota._validatePath`. The 3-level case re-validates the path with
      `/0'/0'` appended, which `bip32-path` reads as the same segments
      followed by two hardened zeros. */
  method ValidatePath(parsed: Parsed) returns (r: Result<seq<uint32>>)
    ensures r == NormalisedPath(parsed)
    decreases if parsed.Parsed? && |parsed.segments| == 3 then 1 else 0
  {
    if parsed.ParseError? {
      return Err(Thrown(PATH_INVALID + parsed.message));
    }
    var pathArray := parsed.segments;
    var i := 0;
    while i < |pathArray|
      invariant 0 <= i <= |pathArray| == |parsed.segments|
      invariant forall j :: 0 <= j < i ==> pathArray[j] == Harden(parsed.segments)[j]
      invariant forall j :: i <= j < |pathArray| ==> pathArray[j] == parsed.segments[j]
    {
      if pathArray[i] == 0 {
        pathArray := pathArray[i := HARDENED];
      }
      i := i + 1;
    }
    assert pathArray == Harden(parsed.segments);
    if |pathArray| == 3 {
      // the extended path has five levels, so this validation succeeds
      var extended := ValidatePath(Parsed(parsed.segments + [HARDENED, HARDENED]));
      pathArray := extended.value;
    }
    if |pathArray| != 5 {
      return Err(Thrown(PATH_INVALID + "Invalid path length: " + NatToDecimal(|pathArray|)));
    }
    return Ok(pathArray);
  }

  // ---------------------------------------------------------------------
  // Commands

  /** The closed table of currencies `_setAccount` knows. */
  function AppMode(k: Constants, currencyId: string): (r: Option<byte>)
    ensures r.Some? <==> currencyId in {"iota", "shimmer", "shimmer_testnet"}
    ensures currencyId == "iota" ==> r == Some(k.modeIotaStardust)
    ensures currencyId == "shimmer" || currencyId == "shimmer_testnet" ==> r == Some(k.modeShimmer)
  {
    if currencyId == "iota" then Some(k.modeIotaStardust)
    else if currencyId == "shimmer" || currencyId == "shimmer_testnet" then Some(k.modeShimmer)
    else None
  }

  function SetAccountCommand(mode: int, account: uint32): Command
  {
    AppCommand(INS_SET_ACCOUNT, mode, 0, AccountPayload(account), TIMEOUT_CMD_NON_USER_INTERACTION)
  }

  function GenerateAddressCommand(change: uint32, index: uint32, count: uint32, verify: bool): Command
  {
    AppCommand(INS_GEN_ADDRESS, if verify then 1 else 0, 0, GenerateAddressPayload(index, change, count),
               TIMEOUT_CMD_USER_INTERACTION)
  }

  function PrepareSigningCommand(p2: int, remainderIndex: uint16, bip32Index: uint32, bip32Change: uint32): Command
  {
    AppCommand(INS_PREPARE_SIGNING, 1, p2, IotaPrepareSigningPayload(remainderIndex, bip32Index, bip32Change),
               TIMEOUT_CMD_USER_INTERACTION)
  }

  function ConfirmEssenceCommand(): Command
  {
    AppCommand(INS_USER_CONFIRM_ESSENCE, 0, 0, [], TIMEOUT_CMD_NON_USER_INTERACTION)
  }

  function SignSingleCommand(index: int): Command
  {
    AppCommand(INS_SIGN_SINGLE, index, 0, [], TIMEOUT_CMD_NON_USER_INTERACTION)
  }

  function AppConfigCommand(): Command
  {
    AppCommand(INS_GET_APP_CONFIG, 0, 0, [], TIMEOUT_CMD_NON_USER_INTERACTION)
  }

  function ResetCommand(partial: bool): Command
  {
    AppCommand(INS_RESET, if partial then 1 else 0, 0, [], TIMEOUT_CMD_NON_USER_INTERACTION)
  }

  function ShowFlowCommand(flow: int): Command
  {
    AppCommand(INS_SHOW_FLOW, flow, 0, [], TIMEOUT_CMD_NON_USER_INTERACTION)
  }

  /** `_signSingle`'s result: the layout picked by the answer's first byte. */
  function SignSingleResult(answer: Result<seq<byte>>): Result<seq<Field>>
  {
    if answer.Err? then Err(answer.error) else SignSingleLayout(answer.value, "reference")
  }

  /** `getAddress(path, currency, verify)` on device state `s`, up to the
      raw address bytes. */
  function AddressOutcome(k: Constants, s: DeviceState, parsed: Parsed, currencyId: string, verify: bool): Outcome<seq<byte>>
  {
    var path := NormalisedPath(parsed);
    if path.Err? then Outcome([], Err(path.error))
    else if AppMode(k, currencyId).None? then Outcome([], Err(Thrown(INCORRECT_P1P2)))
    else AddressForAccount(s, AppMode(k, currencyId).value, path.value, verify)
  }

  /** The address query once the path and the app mode are known. */
  function AddressForAccount(s: DeviceState, mode: byte, path: seq<uint32>, verify: bool): Outcome<seq<byte>>
    requires |path| == 5
  {
    var setAccount := SetAccountCommand(mode, path[2]);
    var answer := Respond(s, setAccount);
    if answer.Err? then Outcome([setAccount], Err(answer.error))
    else
      var rest := AddressOfChangeIndex(Apply(s, setAccount), path[3], path[4], verify);
      Outcome([setAccount] + rest.commands, rest.result)
  }

  /** The address query once the account is set: generate one address,
      then download it. */
  function AddressOfChangeIndex(s: DeviceState, change: uint32, index: uint32, verify: bool): Outcome<seq<byte>>
  {
    var generate := GenerateAddressCommand(change, index, 1, verify);
    var answer := Respond(s, generate);
    if answer.Err? then Outcome([generate], Err(answer.error))
    else
      var download := Download(Apply(s, generate));
      Outcome([generate] + download.commands, download.result)
  }

  /** The address query selects the account of the third path level, then
      generates one address with the fourth level as change and the fifth
      as index. Nothing is sent for a bad path or an unknown currency. */
  lemma AddressCommands(k: Constants, s: DeviceState, parsed: Parsed, currencyId: string, verify: bool)
    ensures var o := AddressOutcome(k, s, parsed, currencyId, verify);
      var path := NormalisedPath(parsed);
      (path.Err? || AppMode(k, currencyId).None? <==> |o.commands| == 0)
      && (AppMode(k, currencyId).None? && path.Ok? ==> o.result == Err(Thrown(INCORRECT_P1P2)))
      && (|o.commands| >= 1 ==>
            o.commands[0].ins == INS_SET_ACCOUNT
            && o.commands[0].p1 == AppMode(k, currencyId).value
            && ReadLe32(o.commands[0].data, 0) == path.value[2])
      && (|o.commands| >= 2 ==>
            o.commands[1].ins == INS_GEN_ADDRESS
            && o.commands[1].p1 == (if verify then 1 else 0)
            && ReadLe32(o.commands[1].data, 0) == path.value[4]
            && ReadLe32(o.commands[1].data, 4) == path.value[3]
            && ReadLe32(o.commands[1].data, 8) == 1
            && o.commands[1].timeout == TIMEOUT_CMD_USER_INTERACTION)
  {
  }

  /** A client of one Ledger device running the IOTA app. */
  class IotaApp {
    const transport: Device
    const k: Constants

    constructor (transport: Device, k: Constants)
      ensures this.transport == transport && this.k == k
    {
      this.transport := transport;
      this.k := k;
    }

    /** `_sendCommand`: sets the timeout, then sends with the app's class
        byte; a status word from the device comes back as the error. */
    method SendCommand(ins: int, p1: int, p2: int, data: seq<byte>, timeout: int) returns (r: Result<seq<byte>>)
      modifies transport
      ensures transport.Performed([AppCommand(ins, p1, p2, data, timeout)])
      ensures r == Respond(old(transport.state), AppCommand(ins, p1, p2, data, timeout))
    {
      transport.SetExchangeTimeout(timeout);
      r := transport.Send(CLA, ins, p1, p2, data);
    }

    method SetAccount(account: uint32, currencyId: string) returns (r: Result<()>)
      modifies transport
      ensures AppMode(k, currencyId).None? ==> transport.Performed([]) && r == Err(Thrown(INCORRECT_P1P2))
      ensures AppMode(k, currencyId).Some? ==>
        var c := SetAccountCommand(AppMode(k, currencyId).value, account);
        transport.Performed([c]) && r == Discard(Respond(old(transport.state), c))
    {
      var appMode: byte;
      if currencyId == "iota" {
        appMode := k.modeIotaStardust;
      } else if currencyId == "shimmer" || currencyId == "shimmer_testnet" {
        appMode := k.modeShimmer;
      } else {
        return Err(Thrown(INCORRECT_P1P2));
      }
      var answer := SendCommand(INS_SET_ACCOUNT, appMode, 0, AccountPayload(account), TIMEOUT_CMD_NON_USER_INTERACTION);
      r := Discard(answer);
    }

    method GetDataBufferState() returns (r: Result<BufferState>)
      modifies transport
      ensures transport.Performed([StateCommand()])
      ensures var answer := Respond(old(transport.state), StateCommand());
        r == if answer.Err? then Err(answer.error) else Ok(DecodeBufferState(answer.value))
    {
      var response :- SendCommand(INS_GET_DATA_BUFFER_STATE, 0, 0, [], TIMEOUT_CMD_NON_USER_INTERACTION);
      return Ok(DecodeBufferState(response));
    }

    method ClearDataBuffer() returns (r: Result<()>)
      modifies transport
      ensures transport.Performed([ClearCommand()])
      ensures r == Discard(Respond(old(transport.state), ClearCommand()))
    {
      var answer := SendCommand(INS_CLEAR_DATA_BUFFER, 0, 0, [], TIMEOUT_CMD_NON_USER_INTERACTION);
      r := Discard(answer);
    }

    /** `_readDataBlock`: the first `size` bytes of the answer, copied one
        by one into a fresh buffer. */
    method ReadDataBlock(block: int, size: nat) returns (r: Result<seq<byte>>)
      modifies transport
      ensures transport.Performed([ReadBlockCommand(block)])
      ensures var answer := Respond(old(transport.state), ReadBlockCommand(block));
        r == if answer.Err? then Err(answer.error) else Ok(DecodeBlock(answer.value, size))
    {
      var response :- SendCommand(INS_READ_DATA_BLOCK, block, 0, [], TIMEOUT_CMD_NON_USER_INTERACTION);
      var data := new byte[size];
      var i := 0;
      while i < size
        modifies data
        invariant 0 <= i <= size
        invariant data[..i] == DecodeBlock(response, size)[..i]
      {
        data[i] := ByteAt(response, i);
        i := i + 1;
      }
      assert data[..] == data[..size];
      assert DecodeBlock(response, size)[..size] == DecodeBlock(response, size);
      return Ok(data[..]);
    }

    method WriteDataBlock(blockNr: int, data: seq<byte>) returns (r: Result<()>)
      modifies transport
      ensures transport.Performed([WriteBlockCommand(blockNr, data)])
      ensures r == Discard(Respond(old(transport.state), WriteBlockCommand(blockNr, data)))
    {
      var answer := SendCommand(INS_WRITE_DATA_BLOCK, blockNr, 0, data, TIMEOUT_CMD_USER_INTERACTION);
      r := Discard(answer);
    }

    /** `_writeDataBuffer`: clear, check the buffer is Empty, count the
        blocks on JS numbers, then write each padded block. */
    method WriteDataBuffer(data: seq<byte>) returns (r: Result<()>)
      modifies transport
      ensures var o := Upload(old(transport.state), data, k.emptyDataType);
        transport.Performed(o.commands) && r == o.result
    {
      ghost var s0, t0 := transport.state, transport.trace;
      var cleared := ClearDataBuffer();
      if cleared.Err? {
        return cleared;
      }
      ApplyAllSingle(s0, ClearCommand());
      ghost var s1, t1 := transport.state, transport.trace;
      ghost var after := UploadAfterClear(s1, data, k.emptyDataType);
      assert Upload(s0, data, k.emptyDataType) == Outcome([ClearCommand()] + after.commands, after.result);
      ApplyAllCons(s0, ClearCommand(), after.commands);
      ApplyAllSingle(s1, StateCommand());
      var dbs :- GetDataBufferState();
      ghost var s2, t2 := transport.state, transport.trace;
      ghost var rest := WriteBlocks(s2, dbs, data, k.emptyDataType);
      assert after == Outcome([StateCommand()] + rest.commands, rest.result);
      ApplyAllCons(s1, StateCommand(), rest.commands);
      r := UploadBlocks(data, dbs);
      TraceRegroup(t0, [ClearCommand()], [StateCommand()], rest.commands);
    }

    /** The rest of `_writeDataBuffer` once the buffer state `dbs` is known:
        the checks, the block count on JS numbers and the writes. */
    method UploadBlocks(data: seq<byte>, dbs: BufferState) returns (r: Result<()>)
      modifies transport
      ensures var o := WriteBlocks(old(transport.state), dbs, data, k.emptyDataType);
        transport.Performed(o.commands) && r == o.result
    {
      ghost var s0, t0 := transport.state, transport.trace;
      if dbs.dataType != k.emptyDataType {
        return Err(Thrown(NOT_EMPTY_MESSAGE));
      }
      var blockSize := dbs.dataBlockSize;
      if blockSize == 0 {
        // `len / 0` is NaN for no data, Infinity otherwise
        if |data| == 0 {
          return Ok(());
        }
        return Err(Thrown(INVALID_DATA_MESSAGE));
      }
      var blocksNeeded: real := |data| as real / blockSize as real;
      if |data| % blockSize != 0 {
        blocksNeeded := blocksNeeded + 1.0;
      }
      assert blocksNeeded == BlocksNeeded(|data|, blockSize);
      CapacityTest(|data|, blockSize, dbs.dataBlockCount);
      if blocksNeeded > dbs.dataBlockCount as real {
        return Err(Thrown(INVALID_DATA_MESSAGE));
      }
      ghost var frames := WriteFrames(data, blockSize);
      forall b | 0 <= b < |frames|
        ensures frames[b] == WriteBlockCommand(b, PaddedBlock(data, b, blockSize))
      {
        WriteFrameAt(data, blockSize, b);
      }
      WriteLoopBound(|data|, blockSize, 0);
      if |frames| > 0 {
        RespondRefusal(s0, frames[0]);
      }
      r := WriteAllBlocks(data, blockSize, blocksNeeded, frames);
    }

    /** The loop of `_writeDataBuffer`: blocks 0, 1, ... while the block
        number is below `blocksNeeded`, stopping at the first refusal. */
    method WriteAllBlocks(data: seq<byte>, blockSize: nat, blocksNeeded: real, ghost frames: seq<Command>) returns (r: Result<()>)
      requires blockSize > 0 && |frames| == WriteCount(|data|, blockSize)
      requires forall b :: 0 <= b < |frames| ==> frames[b] == WriteBlockCommand(b, PaddedBlock(data, b, blockSize))
      requires blocksNeeded == BlocksNeeded(|data|, blockSize)
      modifies transport
      ensures |frames| > 0 && INS_WRITE_DATA_BLOCK in old(transport.state).refused ==>
        transport.Performed([frames[0]]) && r == Err(DeviceError(old(transport.state).refused[INS_WRITE_DATA_BLOCK]))
      ensures !(|frames| > 0 && INS_WRITE_DATA_BLOCK in old(transport.state).refused) ==>
        transport.Performed(frames) && r == Ok(())
    {
      ghost var s0, t0 := transport.state, transport.trace;
      var block := 0;
      WriteLoopBound(|data|, blockSize, block);
      while block as real < blocksNeeded
        invariant 0 <= block <= |frames|
        invariant (block as real < blocksNeeded) <==> block < |frames|
        invariant transport.trace == t0 + frames[..block]
        invariant transport.state == ApplyAll(s0, frames[..block])
        invariant block > 0 ==> INS_WRITE_DATA_BLOCK !in s0.refused
        decreases |frames| - block
      {
        var blockData := PadBlock(data, block, blockSize);
        var written := WriteFrame(block, blockData, s0, t0, frames);
        if written.Err? {
          assert block == 0;
          return written;
        }
        block := block + 1;
        WriteLoopBound(|data|, blockSize, block);
      }
      assert frames[..block] == frames;
      return Ok(());
    }

    /** The block the loop sends: its slice of the data, zero-padded. */
    static method PadBlock(data: seq<byte>, block: nat, blockSize: nat) returns (blockData: seq<byte>)
      ensures blockData == PaddedBlock(data, block, blockSize)
    {
      var start := BlockStart(block, blockSize);
      blockData := Slice(data, start, start + blockSize);
      if |blockData| < blockSize {
        blockData := blockData + Zeros(blockSize - |blockData|);
      }
    }

    /** One write of the upload loop: block `block` of `frames`, sent after
        the blocks before it. */
    method WriteFrame(block: nat, blockData: seq<byte>, ghost s0: DeviceState, ghost t0: seq<Command>, ghost frames: seq<Command>)
      returns (r: Result<()>)
      requires block < |frames| && frames[block] == WriteBlockCommand(block, blockData)
      requires transport.trace == t0 + frames[..block] && transport.state == ApplyAll(s0, frames[..block])
      modifies transport
      ensures transport.trace == t0 + frames[..block + 1]
      ensures transport.state == ApplyAll(s0, frames[..block + 1])
      ensures r.Ok? <==> INS_WRITE_DATA_BLOCK !in s0.refused
      ensures r.Err? ==> r == Err(DeviceError(s0.refused[INS_WRITE_DATA_BLOCK]))
    {
      ghost var before := transport.state;
      r := WriteDataBlock(block, blockData);
      ApplyAllSnoc(before, [], frames[block]);
      assert [] + [frames[block]] == [frames[block]];
      ApplyAllPrefix(s0, frames, block);
      TraceStep(t0, frames, block);
    }

    /** The part of `getAddress` after the account is set: generate one
        address, then read it from the data buffer. */
    method ReadAddress(change: uint32, index: uint32, verify: bool) returns (r: Result<seq<byte>>)
      modifies transport
      ensures var o := AddressOfChangeIndex(old(transport.state), change, index, verify);
        transport.Performed(o.commands) && r == o.result
    {
      ghost var s1, t1 := transport.state, transport.trace;
      ghost var c2 := GenerateAddressCommand(change, index, 1, verify);
      ApplyAllSingle(s1, c2);
      var generated := GenerateAddress(change, index, 1, verify);
      if generated.Err? {
        return Err(generated.error);
      }
      ghost var s2 := transport.state;
      ghost var download := Download(s2);
      assert AddressOfChangeIndex(s1, change, index, verify) == Outcome([c2] + download.commands, download.result);
      ApplyAllCons(s1, c2, download.commands);
      r := GetData();
      TraceAppend(t1, [c2], download.commands);
    }

    /** `_getData`: query the buffer state, then read its blocks. */
    method GetData() returns (r: Result<seq<byte>>)
      modifies transport
      ensures var o := Download(old(transport.state));
        transport.Performed(o.commands) && r == o.result
    {
      ghost var s0, t0 := transport.state, transport.trace;
      ApplyAllSingle(s0, StateCommand());
      var state :- GetDataBufferState();
      ghost var rest := ReadBlocks(s0, state);
      assert Download(s0) == Outcome([StateCommand()] + rest.commands, rest.result);
      ApplyAllCons(s0, StateCommand(), rest.commands);
      r := ReadAllBlocks(state);
      TraceAppend(t0, [StateCommand()], rest.commands);
    }

    /** The rest of `_getData` once the buffer state is known: read
        `ceil(len / blockSize)` blocks into a buffer at a running offset and
        return its first `len` bytes. */
    method ReadAllBlocks(state: BufferState) returns (r: Result<seq<byte>>)
      modifies transport
      ensures var o := ReadBlocks(old(transport.state), state);
        transport.Performed(o.commands) && r == o.result
    {
      ghost var s0, t0 := transport.state, transport.trace;
      RespondRefusal(s0, ReadBlockCommand(0));
      var len, blockSize := state.dataLength, state.dataBlockSize;
      if blockSize == 0 {
        // `len / 0` is NaN for no data; otherwise `i < Infinity` keeps the
        // loop reading until the device refuses, and every read is answered
        // as the first one is
        if len == 0 {
          return Ok([]);
        }
        var first := ReadDataBlock(0, 0);
        if first.Err? {
          return Err(first.error);
        }
        return Err(Diverges);
      }
      var blocks := Ceil(len as real / blockSize as real);
      ReadCountIsCeiling(len, blockSize);
      var data := new byte[blocks * blockSize];
      if blocks > 0 && INS_READ_DATA_BLOCK in s0.refused {
        assert ReadFrames(1) == [ReadBlockCommand(0)];
      }
      var read := ReadInto(data, blocks, blockSize);
      if read.Err? {
        return Err(read.error);
      }
      ReadBlocksAccepted(s0, state);
      assert data[..len] == Gathered(s0, blocks, blockSize)[..len];
      return Ok(data[..len]);
    }

    /** The `for` loop of `_getData`: blocks `0 .. blocks - 1`, each read and
        set into `data` at a running offset, stopping at the first refusal. */
    method ReadInto(data: array<byte>, blocks: nat, blockSize: nat) returns (r: Result<()>)
      requires data.Length == blocks * blockSize
      modifies transport, data
      ensures var s := old(transport.state);
        if blocks > 0 && INS_READ_DATA_BLOCK in s.refused then
          transport.Performed(ReadFrames(1)) && r == Err(DeviceError(s.refused[INS_READ_DATA_BLOCK]))
        else
          transport.Performed(ReadFrames(blocks)) && r == Ok(()) && data[..] == Gathered(s, blocks, blockSize)
    {
      ghost var s0, t0 := transport.state, transport.trace;
      var offset := 0;
      var i := 0;
      while i < blocks
        invariant 0 <= i <= blocks && offset == i * blockSize <= data.Length
        invariant data[..offset] == Gathered(s0, i, blockSize)
        invariant transport.trace == t0 + ReadFrames(i)
        invariant transport.state == s0
        invariant i > 0 ==> INS_READ_DATA_BLOCK !in s0.refused
      {
        ReadsChangeNothing(s0, i + 1);
        var block :- ReadFrame(i, blockSize, s0, t0);
        BlockWithin(i, blocks, blockSize);
        SetBytes(data, block, offset);
        assert data[..offset + |block|] == Gathered(s0, i + 1, blockSize);
        offset := offset + |block|;
        i := i + 1;
      }
      ReadsChangeNothing(s0, i);
      assert data[..] == data[..offset];
      return Ok(());
    }

    /** One read of the `_getData` loop: block `i`, after the blocks before it. */
    method ReadFrame(i: nat, size: nat, ghost s0: DeviceState, ghost t0: seq<Command>) returns (r: Result<seq<byte>>)
      requires transport.state == s0 && transport.trace == t0 + ReadFrames(i)
      modifies transport
      ensures transport.state == s0 && transport.trace == t0 + ReadFrames(i + 1)
      ensures r.Ok? <==> INS_READ_DATA_BLOCK !in s0.refused
      ensures r.Err? ==> r == Err(DeviceError(s0.refused[INS_READ_DATA_BLOCK]))
      ensures r.Ok? ==> r.value == DecodeBlock(StoredBlock(s0, i), size)
    {
      r := ReadDataBlock(i, size);
      ApplyAllSingle(s0, ReadBlockCommand(i));
      assert ReadFrames(i + 1) == ReadFrames(i) + [ReadBlockCommand(i)];
    }

    method ShowMainFlow() returns (r: Result<()>)
      modifies transport
      ensures transport.Performed([ShowFlowCommand(k.flowMainMenu)])
      ensures r == Discard(Respond(old(transport.state), ShowFlowCommand(k.flowMainMenu)))
    {
      var answer := SendCommand(INS_SHOW_FLOW, k.flowMainMenu, 0, [], TIMEOUT_CMD_NON_USER_INTERACTION);
      r := Discard(answer);
    }

    method ShowGeneratingAddressesFlow() returns (r: Result<()>)
      modifies transport
      ensures transport.Performed([ShowFlowCommand(k.flowGeneratingAddresses)])
      ensures r == Discard(Respond(old(transport.state), ShowFlowCommand(k.flowGeneratingAddresses)))
    {
      var answer := SendCommand(INS_SHOW_FLOW, k.flowGeneratingAddresses, 0, [], TIMEOUT_CMD_NON_USER_INTERACTION);
      r := Discard(answer);
    }

    method ShowGenericErrorFlow() returns (r: Result<()>)
      modifies transport
      ensures transport.Performed([ShowFlowCommand(k.flowGenericError)])
      ensures r == Discard(Respond(old(transport.state), ShowFlowCommand(k.flowGenericError)))
    {
      var answer := SendCommand(INS_SHOW_FLOW, k.flowGenericError, 0, [], TIMEOUT_CMD_NON_USER_INTERACTION);
      r := Discard(answer);
    }

    method ShowRejectedFlow() returns (r: Result<()>)
      modifies transport
      ensures transport.Performed([ShowFlowCommand(k.flowRejected)])
      ensures r == Discard(Respond(old(transport.state), ShowFlowCommand(k.flowRejected)))
    {
      var answer := SendCommand(INS_SHOW_FLOW, k.flowRejected, 0, [], TIMEOUT_CMD_NON_USER_INTERACTION);
      r := Discard(answer);
    }

    method ShowSignedSuccessfullyFlow() returns (r: Result<()>)
      modifies transport
      ensures transport.Performed([ShowFlowCommand(k.flowSignedSuccessfully)])
      ensures r == Discard(Respond(old(transport.state), ShowFlowCommand(k.flowSignedSuccessfully)))
    {
      var answer := SendCommand(INS_SHOW_FLOW, k.flowSignedSuccessfully, 0, [], TIMEOUT_CMD_NON_USER_INTERACTION);
      r := Discard(answer);
    }

    method ShowSigningFlow() returns (r: Result<()>)
      modifies transport
      ensures transport.Performed([ShowFlowCommand(k.flowSigning)])
      ensures r == Discard(Respond(old(transport.state), ShowFlowCommand(k.flowSigning)))
    {
      var answer := SendCommand(INS_SHOW_FLOW, k.flowSigning, 0, [], TIMEOUT_CMD_NON_USER_INTERACTION);
      r := Discard(answer);
    }

    method PrepareSigning(p2: int, remainderIndex: uint16, bip32Index: uint32, bip32Change: uint32) returns (r: Result<()>)
      modifies transport
      ensures var c := PrepareSigningCommand(p2, remainderIndex, bip32Index, bip32Change);
        transport.Performed([c]) && r == Discard(Respond(old(transport.state), c))
    {
      var payload := IotaPrepareSigningPayload(remainderIndex, bip32Index, bip32Change);
      var answer := SendCommand(INS_PREPARE_SIGNING, 1, p2, payload, TIMEOUT_CMD_USER_INTERACTION);
      r := Discard(answer);
    }

    method GenerateAddress(change: uint32, index: uint32, count: uint32, verify: bool) returns (r: Result<()>)
      modifies transport
      ensures var c := GenerateAddressCommand(change, index, count, verify);
        transport.Performed([c]) && r == Discard(Respond(old(transport.state), c))
    {
      var payload := GenerateAddressPayload(index, change, count);
      var answer := SendCommand(INS_GEN_ADDRESS, if verify then 0x01 else 0x00, 0, payload, TIMEOUT_CMD_USER_INTERACTION);
      r := Discard(answer);
    }

    /** `_userConfirmEssence` does not await its command: the command is
        issued and its answer, or its failure, never reaches the caller. */
    method UserConfirmEssence()
      modifies transport
      ensures transport.Performed([ConfirmEssenceCommand()])
    {
      var _ := SendCommand(INS_USER_CONFIRM_ESSENCE, 0, 0, [], TIMEOUT_CMD_NON_USER_INTERACTION);
    }

    /** `_signSingle`: picks the answer's layout from its first byte, and
        returns the layout without reading the answer into it. */
    method SignSingle(index: int) returns (r: Result<seq<Field>>)
      modifies transport
      ensures transport.Performed([SignSingleCommand(index)])
      ensures r == SignSingleResult(Respond(old(transport.state), SignSingleCommand(index)))
    {
      var response :- SendCommand(INS_SIGN_SINGLE, index, 0, [], TIMEOUT_CMD_NON_USER_INTERACTION);
      r := SignSingleLayout(response, "reference");
    }

    method GetAppConfig() returns (r: Result<AppConfig>)
      modifies transport
      ensures transport.Performed([AppConfigCommand()])
      ensures var answer := Respond(old(transport.state), AppConfigCommand());
        r == if answer.Err? then Err(answer.error) else Ok(DecodeAppConfig(answer.value))
    {
      var response :- SendCommand(INS_GET_APP_CONFIG, 0, 0, [], TIMEOUT_CMD_NON_USER_INTERACTION);
      return Ok(DecodeAppConfig(response));
    }

    method GetAppVersion() returns (r: Result<string>)
      modifies transport
      ensures transport.Performed([AppConfigCommand()])
      ensures var answer := Respond(old(transport.state), AppConfigCommand());
        r == if answer.Err? then Err(answer.error) else Ok(DecodeAppConfig(answer.value).appVersion)
    {
      var config :- GetAppConfig();
      return Ok(config.appVersion);
    }

    method Reset(partial: bool) returns (r: Result<()>)
      modifies transport
      ensures transport.Performed([ResetCommand(partial)])
      ensures r == Discard(Respond(old(transport.state), ResetCommand(partial)))
    {
      var answer := SendCommand(INS_RESET, if partial then 1 else 0, 0, [], TIMEOUT_CMD_NON_USER_INTERACTION);
      r := Discard(answer);
    }

    /** `getAddress(path, currency, verify)`; `toAddress` stands for
        `uint8ArrayToAddress`, which is not part of this model. */
    method GetAddress(parsed: Parsed, currencyId: string, verify: bool, toAddress: (string, seq<byte>) -> string)
      returns (r: Result<string>)
      modifies transport
      ensures var o := AddressOutcome(k, old(transport.state), parsed, currencyId, verify);
        transport.Performed(o.commands)
        && r == if o.result.Err? then Err(o.result.error) else Ok(toAddress(currencyId, o.result.value))
    {
      ghost var s0, t0 := transport.state, transport.trace;
      var pathArray :- ValidatePath(parsed);
      var accountSet :- SetAccount(pathArray[2], currencyId);
      ghost var c1 := SetAccountCommand(AppMode(k, currencyId).value, pathArray[2]);
      ApplyAllSingle(s0, c1);
      ghost var s1 := transport.state;
      ghost var after := AddressOfChangeIndex(s1, pathArray[3], pathArray[4], verify);
      assert AddressOutcome(k, s0, parsed, currencyId, verify) == Outcome([c1] + after.commands, after.result);
      var addressData := ReadAddress(pathArray[3], pathArray[4], verify);
      ApplyAllCons(s0, c1, after.commands);
      TraceAppend(t0, [c1], after.commands);
      if addressData.Err? {
        return Err(addressData.error);
      }
      return Ok(toAddress(currencyId, addressData.value));
    }
  }
}
