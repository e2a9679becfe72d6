/** The Shimmer Ledger app client, `hw-app-shimmer`: a copy of the IOTA one
    that differs in its path check (five levels, nothing hardened), its
    SET_ACCOUNT (no app mode), its block write (sent as PREPARE_SIGNING),
    its PREPARE_SIGNING payload and its address options. */
module ShimmerHw {
  import opened Wrappers
  import opened Bytes
  import opened Apdu
  import opened Transport
  import opened DataBuffer
  import IotaHw

  const INVALID_PATH_LENGTH := "Invalid path length"

  /** What V8 throws when `getAddress` reads `options.display` of `undefined`. */
  const OPTIONS_UNDEFINED := "Cannot read properties of undefined (reading 'display')"

  /** The Bech32 prefix `getAddress` uses when none is given. */
  const DEFAULT_PREFIX := "smr"

  // ---------------------------------------------------------------------
  // Paths

  /** `Shimmer._validatePath`: the parsed path, unchanged, when it has
      exactly five levels. */
  function ValidatePath(parsed: Parsed): (r: Result<seq<uint32>>)
    ensures r.Ok? <==> parsed.Parsed? && |parsed.segments| == 5
    ensures r.Ok? ==> r.value == parsed.segments
    ensures parsed.ParseError? ==> r == Err(Thrown(PATH_INVALID + parsed.message))
    ensures parsed.Parsed? && |parsed.segments| != 5 ==> r == Err(Thrown(PATH_INVALID + INVALID_PATH_LENGTH))
  {
    match parsed
    case ParseError(message) => Err(Thrown(PATH_INVALID + message))
    case Parsed(segments) =>
      if |segments| != 5 then Err(Thrown(PATH_INVALID + INVALID_PATH_LENGTH)) else Ok(segments)
  }

  /** Every path the Shimmer client accepts, the IOTA client accepts too,
      and the two agree on it when no level is a bare 0. The IOTA client
      also takes 3-level paths, which the Shimmer client rejects. */
  lemma ShimmerPathsAreIotaPaths(parsed: Parsed)
    ensures ValidatePath(parsed).Ok? ==> IotaHw.NormalisedPath(parsed).Ok?
    ensures ValidatePath(parsed).Ok? && (forall i :: 0 <= i < 5 ==> parsed.segments[i] != 0) ==>
      IotaHw.NormalisedPath(parsed) == ValidatePath(parsed)
    ensures parsed.Parsed? && |parsed.segments| == 3 ==>
      ValidatePath(parsed).Err? && IotaHw.NormalisedPath(parsed).Ok?
  {
    if ValidatePath(parsed).Ok? && (forall i :: 0 <= i < 5 ==> parsed.segments[i] != 0) {
      var n := IotaHw.NormalisedPath(parsed).value;
      assert forall i :: 0 <= i < 5 ==> n[i] == parsed.segments[i];
      assert n == parsed.segments;
    }
  }

  // ---------------------------------------------------------------------
  // Commands

  /** `_setAccount(account)`: no app mode, p1 is 0. */
  function SetAccountCommand(account: uint32): Command
  {
    AppCommand(INS_SET_ACCOUNT, 0, 0, AccountPayload(account), TIMEOUT_CMD_NON_USER_INTERACTION)
  }

  /** `_writeDataBlock(blockNr, data)`: sent with the PREPARE_SIGNING
      instruction, not WRITE_DATA_BLOCK. */
  function WriteDataBlockCommand(blockNr: int, data: seq<byte>): Command
  {
    AppCommand(INS_PREPARE_SIGNING, blockNr, 0, data, TIMEOUT_CMD_USER_INTERACTION)
  }

  /** `_prepareSigning(remainderIdx, bip32Idx, bip32Change, p2)`. The
      remainder index is stored in a field the layout does not have, so
      it never reaches the payload. */
  function PrepareSigningCommand(remainderIndex: int, bip32Index: uint32, bip32Change: uint32, p2: int): Command
  {
    AppCommand(INS_PREPARE_SIGNING, 1, p2, ShimmerPrepareSigningPayload(bip32Index, bip32Change),
               TIMEOUT_CMD_USER_INTERACTION)
  }

  /** A Shimmer block write is not a write: on the device it goes to the
      PREPARE_SIGNING handler and leaves the data buffer as it was, and it
      differs from the IOTA write of the same block only in the instruction. */
  lemma WriteDataBlockIsPrepareSigning(s: DeviceState, blockNr: int, data: seq<byte>)
    ensures WriteDataBlockCommand(blockNr, data).ins == 0xa0 != WriteBlockCommand(blockNr, data).ins
    ensures WriteDataBlockCommand(blockNr, data) == WriteBlockCommand(blockNr, data).(ins := INS_PREPARE_SIGNING)
    ensures Apply(s, WriteDataBlockCommand(blockNr, data)) == s
  {
  }

  /** The PREPARE_SIGNING payload: 12 bytes, the first word always 0, the
      remainder index nowhere in the command. */
  lemma PrepareSigningPayload(remainderIndex: int, otherIndex: int, bip32Index: uint32, bip32Change: uint32, p2: int)
    ensures var c := PrepareSigningCommand(remainderIndex, bip32Index, bip32Change, p2);
      |c.data| == 12 && c.p1 == 1 && c.p2 == p2 && c.timeout == TIMEOUT_CMD_USER_INTERACTION
      && ReadLe32(c.data, 0) == 0 && ReadLe32(c.data, 4) == bip32Index && ReadLe32(c.data, 8) == bip32Change
      && c == PrepareSigningCommand(otherIndex, bip32Index, bip32Change, p2)
  {
  }

  // ---------------------------------------------------------------------
  // Address query

  /** `getAddress`'s second argument. */
  datatype AddressOptions = AddressOptions(display: Option<bool>, prefix: Option<string>)

  /** `options.display || false`. */
  function Display(options: AddressOptions): (r: bool)
    ensures r <==> options.display == Some(true)
  {
    if options.display.Some? then options.display.value else false
  }

  /** `options.prefix || 'smr'`: the empty string is falsy too. */
  function Prefix(options: AddressOptions): (r: string)
    ensures options.prefix.None? || options.prefix == Some("") ==> r == DEFAULT_PREFIX
    ensures options.prefix.Some? && options.prefix.value != "" ==> r == options.prefix.value
    ensures r != ""
  {
    if options.prefix.Some? && options.prefix.value != "" then options.prefix.value else DEFAULT_PREFIX
  }

  /** `getAddress(path, options)` on device state `s`, up to the raw
      address bytes. */
  function AddressOutcome(s: DeviceState, parsed: Parsed, options: Option<AddressOptions>): Outcome<seq<byte>>
  {
    var path := ValidatePath(parsed);
    if path.Err? then Outcome([], Err(path.error))
    else if options.None? then Outcome([], Err(Thrown(OPTIONS_UNDEFINED)))
    else
      var setAccount := SetAccountCommand(path.value[2]);
      var answer := Respond(s, setAccount);
      if answer.Err? then Outcome([setAccount], Err(answer.error))
      else
        var rest := IotaHw.AddressOfChangeIndex(Apply(s, setAccount), path.value[3], path.value[4], Display(options.value));
        Outcome([setAccount] + rest.commands, rest.result)
  }

  /** The address query selects the account of the third level, then
      generates one address with the fourth level as change and the fifth as
      index, shown on the device only when `display` is true. Nothing is sent
      for a bad path or missing options. */
  lemma AddressCommands(s: DeviceState, parsed: Parsed, options: Option<AddressOptions>)
    ensures var o := AddressOutcome(s, parsed, options);
      (ValidatePath(parsed).Err? || options.None? <==> |o.commands| == 0)
      && (|o.commands| >= 1 ==>
            o.commands[0] == SetAccountCommand(parsed.segments[2])
            && o.commands[0].p1 == 0 && ReadLe32(o.commands[0].data, 0) == parsed.segments[2])
      && (|o.commands| >= 2 ==>
            o.commands[1].ins == INS_GEN_ADDRESS
            && o.commands[1].p1 == (if options.value.display == Some(true) then 1 else 0)
            && ReadLe32(o.commands[1].data, 0) == parsed.segments[4]
            && ReadLe32(o.commands[1].data, 4) == parsed.segments[3]
            && ReadLe32(o.commands[1].data, 8) == 1)
  {
  }

  /** A client of one Ledger device running the Shimmer app. */
  class ShimmerApp {
    const transport: Device

    constructor (transport: Device)
      ensures this.transport == transport
    {
      this.transport := transport;
    }

    /** `_sendCommand`: sets the timeout, then sends with the app's class
        byte; a status word from the device comes back as the error. */
    method SendCommand(ins: int, p1: int, p2: int, data: seq<byte>, timeout: int) returns (r: Result<seq<byte>>)
      modifies transport
      ensures transport.Performed([AppCommand(ins, p1, p2, data, timeout)])
      ensures r == Respond(old(transport.state), AppCommand(ins, p1, p2, data, timeout))
    {
      transport.SetExchangeTimeout(timeout);
      r := transport.Send(CLA, ins, p1, p2, data);
    }

    method SetAccount(account: uint32) returns (r: Result<()>)
      modifies transport
      ensures transport.Performed([SetAccountCommand(account)])
      ensures r == Discard(Respond(old(transport.state), SetAccountCommand(account)))
    {
      var answer := SendCommand(INS_SET_ACCOUNT, 0, 0, AccountPayload(account), TIMEOUT_CMD_NON_USER_INTERACTION);
      r := Discard(answer);
    }

    method GetDataBufferState() returns (r: Result<BufferState>)
      modifies transport
      ensures transport.Performed([StateCommand()])
      ensures var answer := Respond(old(transport.state), StateCommand());
        r == if answer.Err? then Err(answer.error) else Ok(DecodeBufferState(answer.value))
    {
      var response :- SendCommand(INS_GET_DATA_BUFFER_STATE, 0, 0, [], TIMEOUT_CMD_NON_USER_INTERACTION);
      return Ok(DecodeBufferState(response));
    }

    /** `_readDataBlock`: the first `size` bytes of the answer, copied one
        by one into a fresh buffer. */
    method ReadDataBlock(block: int, size: nat) returns (r: Result<seq<byte>>)
      modifies transport
      ensures transport.Performed([ReadBlockCommand(block)])
      ensures var answer := Respond(old(transport.state), ReadBlockCommand(block));
        r == if answer.Err? then Err(answer.error) else Ok(DecodeBlock(answer.value, size))
    {
      var response :- SendCommand(INS_READ_DATA_BLOCK, block, 0, [], TIMEOUT_CMD_NON_USER_INTERACTION);
      var data := new byte[size];
      var i := 0;
      while i < size
        modifies data
        invariant 0 <= i <= size
        invariant data[..i] == DecodeBlock(response, size)[..i]
      {
        data[i] := ByteAt(response, i);
        i := i + 1;
      }
      assert data[..] == data[..size];
      assert DecodeBlock(response, size)[..size] == DecodeBlock(response, size);
      return Ok(data[..]);
    }

    method WriteDataBlock(blockNr: int, data: seq<byte>) returns (r: Result<()>)
      modifies transport
      ensures transport.Performed([WriteDataBlockCommand(blockNr, data)])
      ensures r == Discard(Respond(old(transport.state), WriteDataBlockCommand(blockNr, data)))
    {
      var answer := SendCommand(INS_PREPARE_SIGNING, blockNr, 0, data, TIMEOUT_CMD_USER_INTERACTION);
      r := Discard(answer);
    }

    /** `_getData`: query the buffer state, then read its blocks. */
    method GetData() returns (r: Result<seq<byte>>)
      modifies transport
      ensures var o := Download(old(transport.state));
        transport.Performed(o.commands) && r == o.result
    {
      ghost var s0, t0 := transport.state, transport.trace;
      ApplyAllSingle(s0, StateCommand());
      var state :- GetDataBufferState();
      ghost var rest := ReadBlocks(s0, state);
      assert Download(s0) == Outcome([StateCommand()] + rest.commands, rest.result);
      ApplyAllCons(s0, StateCommand(), rest.commands);
      r := ReadAllBlocks(state);
      TraceAppend(t0, [StateCommand()], rest.commands);
    }

    /** The rest of `_getData` once the buffer state is known: read
        `ceil(len / blockSize)` blocks into a buffer at a running offset and
        return its first `len` bytes. */
    method ReadAllBlocks(state: BufferState) returns (r: Result<seq<byte>>)
      modifies transport
      ensures var o := ReadBlocks(old(transport.state), state);
        transport.Performed(o.commands) && r == o.result
    {
      ghost var s0, t0 := transport.state, transport.trace;
      RespondRefusal(s0, ReadBlockCommand(0));
      var len, blockSize := state.dataLength, state.dataBlockSize;
      if blockSize == 0 {
        // `len / 0` is NaN for no data; otherwise `i < Infinity` keeps the
        // loop reading until the device refuses, and every read is answered
        // as the first one is
        if len == 0 {
          return Ok([]);
        }
        var first := ReadDataBlock(0, 0);
        if first.Err? {
          return Err(first.error);
        }
        return Err(Diverges);
      }
      var blocks := Ceil(len as real / blockSize as real);
      ReadCountIsCeiling(len, blockSize);
      var data := new byte[blocks * blockSize];
      if blocks > 0 && INS_READ_DATA_BLOCK in s0.refused {
        assert ReadFrames(1) == [ReadBlockCommand(0)];
      }
      var read := ReadInto(data, blocks, blockSize);
      if read.Err? {
        return Err(read.error);
      }
      ReadBlocksAccepted(s0, state);
      assert data[..len] == Gathered(s0, blocks, blockSize)[..len];
      return Ok(data[..len]);
    }

    /** The `for` loop of `_getData`: blocks `0 .. blocks - 1`, each read and
        set into `data` at a running offset, stopping at the first refusal. */
    method ReadInto(data: array<byte>, blocks: nat, blockSize: nat) returns (r: Result<()>)
      requires data.Length == blocks * blockSize
      modifies transport, data
      ensures var s := old(transport.state);
        if blocks > 0 && INS_READ_DATA_BLOCK in s.refused then
          transport.Performed(ReadFrames(1)) && r == Err(DeviceError(s.refused[INS_READ_DATA_BLOCK]))
        else
          transport.Performed(ReadFrames(blocks)) && r == Ok(()) && data[..] == Gathered(s, blocks, blockSize)
    {
      ghost var s0, t0 := transport.state, transport.trace;
      var offset := 0;
      var i := 0;
      while i < blocks
        invariant 0 <= i <= blocks && offset == i * blockSize <= data.Length
        invariant data[..offset] == Gathered(s0, i, blockSize)
        invariant transport.trace == t0 + ReadFrames(i)
        invariant transport.state == s0
        invariant i > 0 ==> INS_READ_DATA_BLOCK !in s0.refused
      {
        ReadsChangeNothing(s0, i + 1);
        var block :- ReadFrame(i, blockSize, s0, t0);
        BlockWithin(i, blocks, blockSize);
        SetBytes(data, block, offset);
        assert data[..offset + |block|] == Gathered(s0, i + 1, blockSize);
        offset := offset + |block|;
        i := i + 1;
      }
      ReadsChangeNothing(s0, i);
      assert data[..] == data[..offset];
      return Ok(());
    }

    /** One read of the `_getData` loop: block `i`, after the blocks before it. */
    method ReadFrame(i: nat, size: nat, ghost s0: DeviceState, ghost t0: seq<Command>) returns (r: Result<seq<byte>>)
      requires transport.state == s0 && transport.trace == t0 + ReadFrames(i)
      modifies transport
      ensures transport.state == s0 && transport.trace == t0 + ReadFrames(i + 1)
      ensures r.Ok? <==> INS_READ_DATA_BLOCK !in s0.refused
      ensures r.Err? ==> r == Err(DeviceError(s0.refused[INS_READ_DATA_BLOCK]))
      ensures r.Ok? ==> r.value == DecodeBlock(StoredBlock(s0, i), size)
    {
      r := ReadDataBlock(i, size);
      ApplyAllSingle(s0, ReadBlockCommand(i));
      assert ReadFrames(i + 1) == ReadFrames(i) + [ReadBlockCommand(i)];
    }

    method PrepareSigning(remainderIndex: int, bip32Index: uint32, bip32Change: uint32, p2: int) returns (r: Result<()>)
      modifies transport
      ensures var c := PrepareSigningCommand(remainderIndex, bip32Index, bip32Change, p2);
        transport.Performed([c]) && r == Discard(Respond(old(transport.state), c))
    {
      var payload := ShimmerPrepareSigningPayload(bip32Index, bip32Change);
      var answer := SendCommand(INS_PREPARE_SIGNING, 1, p2, payload, TIMEOUT_CMD_USER_INTERACTION);
      r := Discard(answer);
    }

    method GenerateAddress(change: uint32, index: uint32, count: uint32, display: bool) returns (r: Result<()>)
      modifies transport
      ensures var c := IotaHw.GenerateAddressCommand(change, index, count, display);
        transport.Performed([c]) && r == Discard(Respond(old(transport.state), c))
    {
      var payload := GenerateAddressPayload(index, change, count);
      var answer := SendCommand(INS_GEN_ADDRESS, if display then 0x01 else 0x00, 0, payload, TIMEOUT_CMD_USER_INTERACTION);
      r := Discard(answer);
    }

    /** `_signSingle`: as in the IOTA client, but the two reference bytes
        are named `data`. */
    method SignSingle(index: int) returns (r: Result<seq<Field>>)
      modifies transport
      ensures transport.Performed([IotaHw.SignSingleCommand(index)])
      ensures var answer := Respond(old(transport.state), IotaHw.SignSingleCommand(index));
        r == if answer.Err? then Err(answer.error) else SignSingleLayout(answer.value, "data")
    {
      var response :- SendCommand(INS_SIGN_SINGLE, index, 0, [], TIMEOUT_CMD_NON_USER_INTERACTION);
      r := SignSingleLayout(response, "data");
    }

    method GetAppConfig() returns (r: Result<AppConfig>)
      modifies transport
      ensures transport.Performed([IotaHw.AppConfigCommand()])
      ensures var answer := Respond(old(transport.state), IotaHw.AppConfigCommand());
        r == if answer.Err? then Err(answer.error) else Ok(DecodeAppConfig(answer.value))
    {
      var response :- SendCommand(INS_GET_APP_CONFIG, 0, 0, [], TIMEOUT_CMD_NON_USER_INTERACTION);
      return Ok(DecodeAppConfig(response));
    }

    method GetAppVersion() returns (r: Result<string>)
      modifies transport
      ensures transport.Performed([IotaHw.AppConfigCommand()])
      ensures var answer := Respond(old(transport.state), IotaHw.AppConfigCommand());
        r == if answer.Err? then Err(answer.error) else Ok(DecodeAppConfig(answer.value).appVersion)
    {
      var config :- GetAppConfig();
      return Ok(config.appVersion);
    }

    /** The part of `getAddress` after the account is set: generate one
        address, then read it from the data buffer. */
    method ReadAddress(change: uint32, index: uint32, display: bool) returns (r: Result<seq<byte>>)
      modifies transport
      ensures var o := IotaHw.AddressOfChangeIndex(old(transport.state), change, index, display);
        transport.Performed(o.commands) && r == o.result
    {
      ghost var s1, t1 := transport.state, transport.trace;
      ghost var c2 := IotaHw.GenerateAddressCommand(change, index, 1, display);
      ApplyAllSingle(s1, c2);
      var generated := GenerateAddress(change, index, 1, display);
      if generated.Err? {
        return Err(generated.error);
      }
      ghost var s2 := transport.state;
      ghost var download := Download(s2);
      assert IotaHw.AddressOfChangeIndex(s1, change, index, display) == Outcome([c2] + download.commands, download.result);
      ApplyAllCons(s1, c2, download.commands);
      r := GetData();
      TraceAppend(t1, [c2], download.commands);
    }

    /** `getAddress(path, options)`; `bech32` stands for
        `bech32.encode(prefix, bech32.toWords(bytes))`, which is not part of
        this model. */
    method GetAddress(parsed: Parsed, options: Option<AddressOptions>, bech32: (string, seq<byte>) -> string)
      returns (r: Result<string>)
      modifies transport
      ensures var o := AddressOutcome(old(transport.state), parsed, options);
        transport.Performed(o.commands)
        && r == if o.result.Err? then Err(o.result.error) else Ok(bech32(Prefix(options.value), o.result.value))
    {
      ghost var s0, t0 := transport.state, transport.trace;
      var pathArray :- ValidatePath(parsed);
      if options.None? {
        return Err(Thrown(OPTIONS_UNDEFINED));
      }
      var display := Display(options.value);
      var prefix := Prefix(options.value);
      var accountSet :- SetAccount(pathArray[2]);
      ghost var c1 := SetAccountCommand(pathArray[2]);
      ApplyAllSingle(s0, c1);
      ghost var s1 := transport.state;
      ghost var after := IotaHw.AddressOfChangeIndex(s1, pathArray[3], pathArray[4], display);
      assert AddressOutcome(s0, parsed, options) == Outcome([c1] + after.commands, after.result);
      var addressData := ReadAddress(pathArray[3], pathArray[4], display);
      ApplyAllCons(s0, c1, after.commands);
      TraceAppend(t0, [c1], after.commands);
      if addressData.Err? {
        return Err(addressData.error);
      }
      return Ok(bech32(prefix, addressData.value));
    }
  }
}
