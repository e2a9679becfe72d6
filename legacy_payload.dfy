/** `signOperation.ts`: the earlier, Chrysalis-era transaction payload.
    It checks its arguments, sorts inputs and outputs by their serialised
    hex, writes the essence to the device and gets one unlock block per
    input. Then `signOperation` submits the payload and reports the
    operation. The constants are those of the Chrysalis iota.js library
    this file was written against. */
module LegacySignOperation {
  import opened Wrappers
  import opened Bytes
  import opened Text
  import opened Apdu
  import opened Transport
  import opened WalletTypes
  import opened KeyedSort
  import opened StardustPayload
  import InputSelection
  import IotaHw
  import DataBuffer

  const SIG_LOCKED_SINGLE_OUTPUT_TYPE := 0
  const SIG_LOCKED_DUST_ALLOWANCE_OUTPUT_TYPE := 1
  const LEGACY_ED25519_ADDRESS_TYPE := 0
  const INDEXATION_PAYLOAD_TYPE := 2
  const LEGACY_ESSENCE_TYPE := 0
  const LEGACY_PAYLOAD_TYPE := 0
  const MIN_INDEXATION_KEY_LENGTH := 1
  const MAX_INDEXATION_KEY_LENGTH := 64

  /** The P1 byte of `_signSingle(input)`: the loop passes the sorted
      entry object where an index is expected, and packing a command
      header into bytes turns a non-number into 0. */
  const OBJECT_P1 := 0

  type UtxoInput = InputSelection.UtxoInput

  /** An entry of the `outputs` argument; an absent `isDustAllowance` is
      `false`. */
  datatype OutputSpec = OutputSpec(address: string, addressType: int, amount: nat, isDustAllowance: bool)

  /** A signature-locked output (`ISigLockedSingleOutput` or
      `ISigLockedDustAllowanceOutput`). */
  datatype SigLockedOutput = SigLockedOutput(outputType: int, addressType: int, address: string, amount: nat)

  /** An indexation key or data: a string or a `Uint8Array`. */
  datatype IndexValue = TextValue(text: string) | ByteValue(bytes: seq<byte>)

  datatype Indexation = Indexation(key: IndexValue, data: Option<IndexValue>)

  datatype IndexationPayload = IndexationPayload(payloadType: int, index: string, data: Option<string>)

  datatype LegacyEssence = LegacyEssence(
    essenceType: int,
    inputs: seq<UtxoInput>,
    outputs: seq<SigLockedOutput>,
    payload: Option<IndexationPayload>)

  datatype LegacyPayload = LegacyPayload(payloadType: int, essence: LegacyEssence, unlocks: seq<Unlock>)

  /** The library code the payload is built with: UTF-8 encoding (under
      `Converter.utf8ToHex`), `serializeInput` and `serializeOutput`
      followed by `finalHex`, and `serializeTransactionEssence`. */
  datatype LegacyCodec = LegacyCodec(
    utf8: string -> seq<byte>,
    serializeInput: UtxoInput -> string,
    serializeOutput: SigLockedOutput -> string,
    serializeEssence: LegacyEssence -> seq<byte>)

  /** JavaScript truthiness: an empty string is falsy, an array never. */
  predicate IsTruthy(v: IndexValue)
  {
    v.TextValue? ==> v.text != ""
  }

  /** The bytes a key or data value stands for. */
  function ValueBytes(codec: LegacyCodec, v: IndexValue): seq<byte>
  {
    match v
    case TextValue(t) => codec.utf8(t)
    case ByteValue(b) => b
  }

  /** `Converter.utf8ToHex(v)` or `Converter.bytesToHex(v)`. */
  function ValueHex(codec: LegacyCodec, v: IndexValue): (r: string)
    ensures |r| == 2 * |ValueBytes(codec, v)|
  {
    ToHex(ValueBytes(codec, v))
  }

  function ShortKeyMessage(n: int): string
  {
    "The indexation key length is " + IntToDecimal(n) + ", which is below the minimum size of "
      + IntToDecimal(MIN_INDEXATION_KEY_LENGTH)
  }

  function LongKeyMessage(n: int): string
  {
    "The indexation key length is " + IntToDecimal(n) + ", which exceeds the maximum size of "
      + IntToDecimal(MAX_INDEXATION_KEY_LENGTH)
  }

  /** `localIndexationKeyHex`: `None` is `undefined`, when no truthy key is
      given; a key whose byte length is out of range is refused. */
  function IndexationKeyHex(codec: LegacyCodec, indexation: Option<Indexation>): (r: Result<Option<string>>)
    ensures indexation.None? || !IsTruthy(indexation.value.key) ==> r == Ok(None)
    ensures indexation.Some? && IsTruthy(indexation.value.key) ==>
      var n := |ValueBytes(codec, indexation.value.key)|;
      && (n < MIN_INDEXATION_KEY_LENGTH ==> r == Err(Thrown(ShortKeyMessage(n))))
      && (MIN_INDEXATION_KEY_LENGTH <= n <= MAX_INDEXATION_KEY_LENGTH ==>
            r == Ok(Some(ValueHex(codec, indexation.value.key))))
      && (n > MAX_INDEXATION_KEY_LENGTH ==> r == Err(Thrown(LongKeyMessage(n))))
  {
    if indexation.None? || !IsTruthy(indexation.value.key) then Ok(None)
    else
      var hex := ValueHex(codec, indexation.value.key);
      HalfOfDouble(|ValueBytes(codec, indexation.value.key)|);
      if |hex| / 2 < MIN_INDEXATION_KEY_LENGTH then Err(Thrown(ShortKeyMessage(|hex| / 2)))
      else if |hex| / 2 > MAX_INDEXATION_KEY_LENGTH then Err(Thrown(LongKeyMessage(|hex| / 2)))
      else Ok(Some(hex))
  }

  lemma HalfOfDouble(k: nat)
    ensures (2 * k) / 2 == k
  {
  }

  /** The output built for an entry with an Ed25519 address. */
  function SigLockedOf(o: OutputSpec): (r: SigLockedOutput)
    ensures r.outputType == (if o.isDustAllowance then SIG_LOCKED_DUST_ALLOWANCE_OUTPUT_TYPE
                             else SIG_LOCKED_SINGLE_OUTPUT_TYPE)
    ensures r.addressType == o.addressType && r.address == o.address && r.amount == o.amount
  {
    SigLockedOutput(if o.isDustAllowance then SIG_LOCKED_DUST_ALLOWANCE_OUTPUT_TYPE else SIG_LOCKED_SINGLE_OUTPUT_TYPE,
                    o.addressType, o.address, o.amount)
  }

  function UnrecognizedAddressMessage(addressType: int): string
  {
    "Unrecognized output address type " + IntToDecimal(addressType)
  }

  /** `outputsWithSerialization` after the loop over `outputs`, or the
      error of the first entry whose address is not Ed25519. */
  function SerializedOutputs(codec: LegacyCodec, outputs: seq<OutputSpec>): Result<seq<Keyed<SigLockedOutput>>>
  {
    if |outputs| == 0 then Ok([])
    else
      var prev := SerializedOutputs(codec, outputs[..|outputs| - 1]);
      var o := outputs[|outputs| - 1];
      if prev.Err? then prev
      else if o.addressType == LEGACY_ED25519_ADDRESS_TYPE
      then Ok(prev.value + [Keyed(SigLockedOf(o), codec.serializeOutput(SigLockedOf(o)))])
      else Err(Thrown(UnrecognizedAddressMessage(o.addressType)))
  }

  /** The loop over `outputs`. */
  method SerializeOutputs(codec: LegacyCodec, outputs: seq<OutputSpec>) returns (r: Result<seq<Keyed<SigLockedOutput>>>)
    ensures r == SerializedOutputs(codec, outputs)
  {
    var serialized: seq<Keyed<SigLockedOutput>> := [];
    for i := 0 to |outputs|
      invariant SerializedOutputs(codec, outputs[..i]) == Ok(serialized)
    {
      assert outputs[..i + 1][..i] == outputs[..i];
      var output := outputs[i];
      if output.addressType == LEGACY_ED25519_ADDRESS_TYPE {
        var o := SigLockedOf(output);
        serialized := serialized + [Keyed(o, codec.serializeOutput(o))];
      } else {
        SerializedOutputsStop(codec, outputs, i + 1);
        return Err(Thrown(UnrecognizedAddressMessage(output.addressType)));
      }
    }
    assert outputs[..|outputs|] == outputs;
    r := Ok(serialized);
  }

  /** Once an entry is refused, the later entries change nothing. */
  lemma {:induction false} SerializedOutputsStop(codec: LegacyCodec, outputs: seq<OutputSpec>, k: nat)
    requires k <= |outputs| && SerializedOutputs(codec, outputs[..k]).Err?
    ensures SerializedOutputs(codec, outputs) == SerializedOutputs(codec, outputs[..k])
    decreases |outputs| - k
  {
    if k < |outputs| {
      assert outputs[..k + 1][..k] == outputs[..k];
      SerializedOutputsStop(codec, outputs, k + 1);
    } else {
      assert outputs[..k] == outputs;
    }
  }

  /** The loop accepts the outputs exactly when every address is Ed25519,
      and then builds one output per entry, in order, keyed by its
      serialisation; otherwise it names the first address type it met. */
  lemma {:induction false} SerializedOutputsProperties(codec: LegacyCodec, outputs: seq<OutputSpec>)
    ensures var r := SerializedOutputs(codec, outputs);
      && (r.Ok? <==> forall i :: 0 <= i < |outputs| ==> outputs[i].addressType == LEGACY_ED25519_ADDRESS_TYPE)
      && (r.Ok? ==> |r.value| == |outputs| && KeyedBy(r.value, codec.serializeOutput)
                    && forall i :: 0 <= i < |outputs| ==> r.value[i].item == SigLockedOf(outputs[i]))
      && (r.Err? ==> exists k :: 0 <= k < |outputs|
                       && outputs[k].addressType != LEGACY_ED25519_ADDRESS_TYPE
                       && r.error == Thrown(UnrecognizedAddressMessage(outputs[k].addressType))
                       && forall i :: 0 <= i < k ==> outputs[i].addressType == LEGACY_ED25519_ADDRESS_TYPE)
    decreases |outputs|
  {
    if |outputs| > 0 {
      var init := outputs[..|outputs| - 1];
      SerializedOutputsProperties(codec, init);
      assert forall i :: 0 <= i < |init| ==> init[i] == outputs[i];
    }
  }

  /** `inputsSerialized`: each input keyed by its serialisation. */
  function KeyedInputs(codec: LegacyCodec, inputs: seq<UtxoInput>): (r: seq<Keyed<UtxoInput>>)
    ensures |r| == |inputs| && KeyedBy(r, codec.serializeInput)
    ensures Items(r) == inputs
  {
    var r := seq(|inputs|, i requires 0 <= i < |inputs| => Keyed(inputs[i], codec.serializeInput(inputs[i])));
    KeyedItems(r, inputs);
    r
  }

  lemma {:induction false} KeyedItems(r: seq<Keyed<UtxoInput>>, inputs: seq<UtxoInput>)
    requires |r| == |inputs| && forall i :: 0 <= i < |r| ==> r[i].item == inputs[i]
    ensures Items(r) == inputs
    decreases |r|
  {
    if |r| > 0 {
      KeyedItems(r[1..], inputs[1..]);
      assert inputs == [inputs[0]] + inputs[1..];
    }
  }

  /** The essence's payload: an indexation payload exactly when the key
      hex is present and non-empty; its data is hex when truthy data is
      given. */
  function PayloadOf(codec: LegacyCodec, keyHex: Option<string>, indexation: Option<Indexation>): Option<IndexationPayload>
  {
    if keyHex.Some? && keyHex.value != "" then
      Some(IndexationPayload(INDEXATION_PAYLOAD_TYPE, keyHex.value,
                             if indexation.Some? && indexation.value.data.Some? && IsTruthy(indexation.value.data.value)
                             then Some(ValueHex(codec, indexation.value.data.value)) else None))
    else None
  }

  /** The essence: inputs and outputs sorted by their serialised hex. */
  function LegacyEssenceOf(codec: LegacyCodec, inputs: seq<UtxoInput>, outputs: seq<Keyed<SigLockedOutput>>,
                           keyHex: Option<string>, indexation: Option<Indexation>): LegacyEssence
  {
    LegacyEssence(LEGACY_ESSENCE_TYPE, Items(SortByKey(KeyedInputs(codec, inputs))), Items(SortByKey(outputs)),
                  PayloadOf(codec, keyHex, indexation))
  }

  /** `await iota._signSingle(input)` for `n` sorted inputs: every command
      carries P1 `OBJECT_P1`, so each is answered alike. */
  function LegacySignAll(s: DeviceState, n: nat): Outcome<seq<Unlock>>
  {
    if n == 0 then Outcome([], Ok([]))
    else
      var prev := LegacySignAll(s, n - 1);
      if prev.result.Err? then prev
      else
        var step := SignStep(s, OBJECT_P1);
        Outcome(prev.commands + [IotaHw.SignSingleCommand(OBJECT_P1)],
                if step.Err? then Err(step.error) else Ok(prev.result.value + [step.value]))
  }

  /** Every request carries P1 `OBJECT_P1`, and none changes the device
      state. */
  lemma {:induction false} LegacySignAllCommands(s: DeviceState, n: nat)
    ensures var o := LegacySignAll(s, n);
      && |o.commands| <= n
      && (forall i :: 0 <= i < |o.commands| ==> o.commands[i] == IotaHw.SignSingleCommand(OBJECT_P1))
      && ApplyAll(s, o.commands) == s
    decreases n
  {
    if n > 0 {
      LegacySignAllCommands(s, n - 1);
      var prev := LegacySignAll(s, n - 1);
      if prev.result.Ok? {
        var c := IotaHw.SignSingleCommand(OBJECT_P1);
        var o := LegacySignAll(s, n);
        assert o.commands == prev.commands + [c];
        forall i | 0 <= i < |o.commands|
          ensures o.commands[i] == c
        {
          if i < |prev.commands| {
            assert o.commands[i] == prev.commands[i];
          }
        }
        ApplyAllSnoc(s, prev.commands, c);
        SignSingleKeeps(s, OBJECT_P1);
      }
    }
  }

  /** With a signable answer, one signature unlock per input. */
  lemma {:induction false} LegacySignAllSigned(s: DeviceState, n: nat)
    requires Signable(s, OBJECT_P1)
    ensures var o := LegacySignAll(s, n);
      |o.commands| == n && o.result == Ok(seq(n, _ => UnboundUnlock))
    decreases n
  {
    if n > 0 {
      LegacySignAllSigned(s, n - 1);
      var prev := LegacySignAll(s, n - 1);
      assert SignStep(s, OBJECT_P1) == Ok(UnboundUnlock);
      assert LegacySignAll(s, n) == Outcome(prev.commands + [IotaHw.SignSingleCommand(OBJECT_P1)],
                                            Ok(prev.result.value + [UnboundUnlock]));
      assert prev.result.value + [UnboundUnlock] == seq(n, _ => UnboundUnlock);
    } else {
      assert seq(0, _ => UnboundUnlock) == [];
    }
  }

  /** Without one, the first request fails and nothing more is asked. */
  lemma {:induction false} LegacySignAllRefused(s: DeviceState, n: nat)
    requires !Signable(s, OBJECT_P1) && n > 0
    ensures var o := LegacySignAll(s, n);
      |o.commands| == 1 && o.result == Err(SignStep(s, OBJECT_P1).error)
    decreases n
  {
    if n > 1 {
      LegacySignAllRefused(s, n - 1);
    } else {
      assert LegacySignAll(s, 0) == Outcome([], Ok([]));
    }
  }

  /** The commands that write the essence and let the user confirm it;
      there is no PREPARE_SIGNING here. */
  function LegacyEssenceCommands(essenceBytes: seq<byte>): seq<Command>
  {
    [DataBuffer.WriteBlockCommand(0, essenceBytes), IotaHw.ConfirmEssenceCommand()]
  }

  function LegacySigningOutcome(s: DeviceState, essenceBytes: seq<byte>, n: nat): Outcome<seq<Unlock>>
  {
    var pre := LegacyEssenceCommands(essenceBytes);
    var signing := LegacySignAll(ApplyAll(s, pre), n);
    Outcome(pre + signing.commands, signing.result)
  }

  /** The payload once the key and the outputs are accepted. */
  function LegacyPayloadFor(s: DeviceState, codec: LegacyCodec, inputs: seq<UtxoInput>,
                            outputs: seq<Keyed<SigLockedOutput>>, keyHex: Option<string>,
                            indexation: Option<Indexation>): Outcome<LegacyPayload>
  {
    var essence := LegacyEssenceOf(codec, inputs, outputs, keyHex, indexation);
    var signing := LegacySigningOutcome(s, codec.serializeEssence(essence), |inputs|);
    Outcome(signing.commands,
            if signing.result.Err? then Err(signing.result.error)
            else Ok(LegacyPayload(LEGACY_PAYLOAD_TYPE, essence, signing.result.value)))
  }

  /** `buildTransactionPayload(account, transport, inputs, outputs,
      indexation)` on device state `s`. */
  function LegacyPayloadOutcome(s: DeviceState, codec: LegacyCodec, inputs: seq<UtxoInput>, outputs: seq<OutputSpec>,
                                indexation: Option<Indexation>): Outcome<LegacyPayload>
  {
    if |inputs| == 0 then Outcome([], Err(Thrown("You must specify some inputs")))
    else if |outputs| == 0 then Outcome([], Err(Thrown("You must specify some outputs")))
    else
      var keyHex := IndexationKeyHex(codec, indexation);
      if keyHex.Err? then Outcome([], Err(keyHex.error))
      else
        var serialized := SerializedOutputs(codec, outputs);
        if serialized.Err? then Outcome([], Err(serialized.error))
        else LegacyPayloadFor(s, codec, inputs, serialized.value, keyHex.value, indexation)
  }

  /** `buildTransactionPayload`. */
  method LegacyBuildTransactionPayload(app: IotaHw.IotaApp, codec: LegacyCodec, inputs: seq<UtxoInput>,
                                       outputs: seq<OutputSpec>, indexation: Option<Indexation>)
    returns (r: Result<LegacyPayload>)
    modifies app.transport
    ensures var o := LegacyPayloadOutcome(old(app.transport.state), codec, inputs, outputs, indexation);
      app.transport.Performed(o.commands) && r == o.result
  {
    if |inputs| == 0 {
      return Err(Thrown("You must specify some inputs"));
    }
    if |outputs| == 0 {
      return Err(Thrown("You must specify some outputs"));
    }
    var keyHex := IndexationKeyHex(codec, indexation);
    if keyHex.Err? {
      return Err(keyHex.error);
    }
    var serialized := SerializeOutputs(codec, outputs);
    if serialized.Err? {
      return Err(serialized.error);
    }
    r := SignLegacyEssence(app, codec, inputs, serialized.value, keyHex.value, indexation);
  }

  /** Sorts, builds the essence, writes it, asks for confirmation and
      signs each sorted input. */
  method SignLegacyEssence(app: IotaHw.IotaApp, codec: LegacyCodec, inputs: seq<UtxoInput>,
                           outputs: seq<Keyed<SigLockedOutput>>, keyHex: Option<string>, indexation: Option<Indexation>)
    returns (r: Result<LegacyPayload>)
    modifies app.transport
    ensures var o := LegacyPayloadFor(old(app.transport.state), codec, inputs, outputs, keyHex, indexation);
      app.transport.Performed(o.commands) && r == o.result
  {
    var sortedInputs := SortByKey(KeyedInputs(codec, inputs));
    var sortedOutputs := SortByKey(outputs);
    var essence := LegacyEssence(LEGACY_ESSENCE_TYPE, Items(sortedInputs), Items(sortedOutputs),
                                 PayloadOf(codec, keyHex, indexation));
    var essenceBytes := codec.serializeEssence(essence);
    ghost var s0, t0 := app.transport.state, app.transport.trace;
    WriteLegacyEssence(app, essenceBytes);
    ghost var pre := LegacyEssenceCommands(essenceBytes);
    var unlocks := SignLegacyInputs(app, |sortedInputs|);
    TraceAppend(t0, pre, LegacySignAll(ApplyAll(s0, pre), |inputs|).commands);
    ApplyAllAppend(s0, pre, LegacySignAll(ApplyAll(s0, pre), |inputs|).commands);
    if unlocks.Err? {
      return Err(unlocks.error);
    }
    r := Ok(LegacyPayload(LEGACY_PAYLOAD_TYPE, essence, unlocks.value));
  }

  /** `iota._writeDataBlock(0, essence)` and `iota._userConfirmEssence()`,
      neither awaited. */
  method WriteLegacyEssence(app: IotaHw.IotaApp, essenceBytes: seq<byte>)
    modifies app.transport
    ensures app.transport.Performed(LegacyEssenceCommands(essenceBytes))
  {
    ghost var s0, t0 := app.transport.state, app.transport.trace;
    var _ := app.WriteDataBlock(0, essenceBytes);
    ghost var s1, t1 := app.transport.state, app.transport.trace;
    app.UserConfirmEssence();
    PerformedTwo(t0, s0, DataBuffer.WriteBlockCommand(0, essenceBytes), IotaHw.ConfirmEssenceCommand(),
                 t1, s1, app.transport.trace, app.transport.state);
  }

  /** `for (const input of sortedInputs) { ... await iota._signSingle(input) ... }`. */
  method SignLegacyInputs(app: IotaHw.IotaApp, n: nat) returns (r: Result<seq<Unlock>>)
    modifies app.transport
    ensures var o := LegacySignAll(old(app.transport.state), n);
      app.transport.Performed(o.commands) && r == o.result
  {
    ghost var s0 := app.transport.state;
    ghost var t0 := app.transport.trace;
    var unlocks: seq<Unlock> := [];
    var index := 0;
    while index < n
      invariant 0 <= index <= n
      invariant LegacySignAll(s0, index).result == Ok(unlocks)
      invariant app.transport.trace == t0 + LegacySignAll(s0, index).commands && app.transport.state == s0
    {
      var step := SignOne(app, OBJECT_P1);
      assert LegacySignAll(s0, index + 1).commands == LegacySignAll(s0, index).commands + [IotaHw.SignSingleCommand(OBJECT_P1)];
      if step.Err? {
        LegacySignAllCommands(s0, index + 1);
        LegacySignAllAfterFailure(s0, index + 1, n);
        return Err(step.error);
      }
      unlocks := unlocks + [step.value];
      index := index + 1;
    }
    LegacySignAllCommands(s0, n);
    r := Ok(unlocks);
  }

  lemma {:induction false} LegacySignAllAfterFailure(s: DeviceState, k: nat, n: nat)
    requires k <= n && LegacySignAll(s, k).result.Err?
    ensures LegacySignAll(s, n) == LegacySignAll(s, k)
    decreases n
  {
    if k < n {
      LegacySignAllAfterFailure(s, k, n - 1);
    }
  }

  /** The outputs built for `outputs`, in order. */
  function SigLockedAll(outputs: seq<OutputSpec>): (r: seq<SigLockedOutput>)
    ensures |r| == |outputs| && forall i :: 0 <= i < |outputs| ==> r[i] == SigLockedOf(outputs[i])
  {
    seq(|outputs|, i requires 0 <= i < |outputs| => SigLockedOf(outputs[i]))
  }

  /** When the outputs are accepted, the serialised entries hold one
      output per argument entry, in order. */
  lemma SerializedItems(codec: LegacyCodec, outputs: seq<OutputSpec>)
    requires SerializedOutputs(codec, outputs).Ok?
    ensures Items(SerializedOutputs(codec, outputs).value) == SigLockedAll(outputs)
    ensures KeyedBy(SerializedOutputs(codec, outputs).value, codec.serializeOutput)
  {
    SerializedOutputsProperties(codec, outputs);
    var v := SerializedOutputs(codec, outputs).value;
    forall i | 0 <= i < |v|
      ensures Items(v)[i] == SigLockedAll(outputs)[i]
    {
      ItemsAt(v, i);
    }
  }

  /** A key is accepted with its hex, which is never empty. */
  lemma KeyHexNonEmpty(codec: LegacyCodec, indexation: Option<Indexation>)
    requires IndexationKeyHex(codec, indexation).Ok?
    ensures var k := IndexationKeyHex(codec, indexation).value;
      (k.Some? <==> indexation.Some? && IsTruthy(indexation.value.key)) && (k.Some? ==> k.value != "")
  {
  }

  /** What a successful payload holds. */
  lemma LegacyPayloadProperties(s: DeviceState, codec: LegacyCodec, inputs: seq<UtxoInput>, outputs: seq<OutputSpec>,
                                indexation: Option<Indexation>)
    requires LegacyPayloadOutcome(s, codec, inputs, outputs, indexation).result.Ok?
    ensures var o := LegacyPayloadOutcome(s, codec, inputs, outputs, indexation);
      var p := o.result.value;
      var e := p.essence;
      && p.payloadType == LEGACY_PAYLOAD_TYPE && e.essenceType == LEGACY_ESSENCE_TYPE
      && (forall i, j :: 0 <= i < j < |e.inputs| ==>
            !LexLess(codec.serializeInput(e.inputs[j]), codec.serializeInput(e.inputs[i])))
      && multiset(e.inputs) == multiset(inputs)
      && (forall i, j :: 0 <= i < j < |e.outputs| ==>
            !LexLess(codec.serializeOutput(e.outputs[j]), codec.serializeOutput(e.outputs[i])))
      && multiset(e.outputs) == multiset(SigLockedAll(outputs))
      && (e.payload.Some? <==> indexation.Some? && IsTruthy(indexation.value.key))
      && (e.payload.Some? ==> e.payload.value.payloadType == INDEXATION_PAYLOAD_TYPE
                              && e.payload.value.index == ValueHex(codec, indexation.value.key))
      && p.unlocks == seq(|inputs|, _ => UnboundUnlock)
  {
    var keyHex := IndexationKeyHex(codec, indexation);
    var serialized := SerializedOutputs(codec, outputs);
    var keyed := KeyedInputs(codec, inputs);
    KeyHexNonEmpty(codec, indexation);
    SerializedItems(codec, outputs);
    SortSorted(keyed);
    SortKeyedBy(keyed, codec.serializeInput);
    ItemsOrdered(SortByKey(keyed), codec.serializeInput);
    SortPermutes(keyed);
    SortSorted(serialized.value);
    SortKeyedBy(serialized.value, codec.serializeOutput);
    ItemsOrdered(SortByKey(serialized.value), codec.serializeOutput);
    SortPermutes(serialized.value);
    var essence := LegacyEssenceOf(codec, inputs, serialized.value, keyHex.value, indexation);
    var pre := LegacyEssenceCommands(codec.serializeEssence(essence));
    var s1 := ApplyAll(s, pre);
    if Signable(s1, OBJECT_P1) {
      LegacySignAllSigned(s1, |inputs|);
    } else {
      LegacySignAllRefused(s1, |inputs|);
    }
  }

  /** The commands, in the order the device receives them: the essence
      write and the confirmation, then one SIGN_SINGLE per input until
      one fails; nothing at all when an argument is refused. */
  lemma LegacyPayloadCommands(s: DeviceState, codec: LegacyCodec, inputs: seq<UtxoInput>, outputs: seq<OutputSpec>,
                              indexation: Option<Indexation>)
    ensures var o := LegacyPayloadOutcome(s, codec, inputs, outputs, indexation);
      && (|inputs| == 0 ==> o == Outcome([], Err(Thrown("You must specify some inputs"))))
      && (|inputs| > 0 && |outputs| == 0 ==> o == Outcome([], Err(Thrown("You must specify some outputs"))))
      && (IndexationKeyHex(codec, indexation).Err? || SerializedOutputs(codec, outputs).Err? ==> o.commands == [])
      && (|o.commands| > 0 ==>
            var essence := LegacyEssenceOf(codec, inputs, SerializedOutputs(codec, outputs).value,
                                           IndexationKeyHex(codec, indexation).value, indexation);
            && 2 < |o.commands| <= 2 + |inputs|
            && o.commands[..2] == LegacyEssenceCommands(codec.serializeEssence(essence))
            && (forall i :: 2 <= i < |o.commands| ==> o.commands[i] == IotaHw.SignSingleCommand(OBJECT_P1))
            && (o.result.Ok? <==> |o.commands| == 2 + |inputs| && Signable(ApplyAll(s, o.commands[..2]), OBJECT_P1)))
  {
    var keyHex := IndexationKeyHex(codec, indexation);
    var serialized := SerializedOutputs(codec, outputs);
    if |inputs| > 0 && |outputs| > 0 && keyHex.Ok? && serialized.Ok? {
      var essence := LegacyEssenceOf(codec, inputs, serialized.value, keyHex.value, indexation);
      var pre := LegacyEssenceCommands(codec.serializeEssence(essence));
      var s1 := ApplyAll(s, pre);
      var o := LegacySignAll(s1, |inputs|);
      LegacySignAllCommands(s1, |inputs|);
      if Signable(s1, OBJECT_P1) {
        LegacySignAllSigned(s1, |inputs|);
      } else {
        LegacySignAllRefused(s1, |inputs|);
      }
      assert (pre + o.commands)[..2] == pre;
    }
  }

  /** An entry `signOperation` adds to the reported value and recipients.
      The `outputs.length == 0` alternative cannot hold for an entry of a
      non-empty list, and is kept as written. */
  predicate Counted(o: OutputSpec, freshAddress: string, count: nat)
  {
    !o.isDustAllowance && (o.address != freshAddress || count == 0)
  }

  /** `value` after the loop over the first entries; `count` is the
      length of the whole list. */
  function SentValue(outputs: seq<OutputSpec>, freshAddress: string, count: nat): nat
  {
    if |outputs| == 0 then 0
    else
      var last := outputs[|outputs| - 1];
      SentValue(outputs[..|outputs| - 1], freshAddress, count) + (if Counted(last, freshAddress, count) then last.amount else 0)
  }

  /** `recipients` after the loop over the first entries. */
  function SentRecipients(outputs: seq<OutputSpec>, freshAddress: string, count: nat): seq<string>
  {
    if |outputs| == 0 then []
    else
      var last := outputs[|outputs| - 1];
      SentRecipients(outputs[..|outputs| - 1], freshAddress, count)
        + (if Counted(last, freshAddress, count) then [last.address] else [])
  }

  /** The amounts of the entries that are not counted: dust allowances
      and payments back to the fresh address. */
  function KeptValue(outputs: seq<OutputSpec>, freshAddress: string, count: nat): nat
  {
    if |outputs| == 0 then 0
    else
      var last := outputs[|outputs| - 1];
      KeptValue(outputs[..|outputs| - 1], freshAddress, count) + (if Counted(last, freshAddress, count) then 0 else last.amount)
  }

  function TotalAmount(outputs: seq<OutputSpec>): nat
  {
    if |outputs| == 0 then 0 else TotalAmount(outputs[..|outputs| - 1]) + outputs[|outputs| - 1].amount
  }

  /** The loop of `signOperation` over `outputs`. */
  method TallyOutputs(account: Account, outputs: seq<OutputSpec>) returns (value: nat, recipients: seq<string>)
    ensures value == SentValue(outputs, account.freshAddress, |outputs|)
    ensures recipients == SentRecipients(outputs, account.freshAddress, |outputs|)
  {
    value, recipients := 0, [];
    for i := 0 to |outputs|
      invariant value == SentValue(outputs[..i], account.freshAddress, |outputs|)
      invariant recipients == SentRecipients(outputs[..i], account.freshAddress, |outputs|)
    {
      assert outputs[..i + 1][..i] == outputs[..i];
      var output := outputs[i];
      if !output.isDustAllowance && (output.address != account.freshAddress || |outputs| == 0) {
        value := value + output.amount;
        recipients := recipients + [output.address];
      }
    }
    assert outputs[..|outputs|] == outputs;
  }

  /** The reported value and what is left out add up to all amounts. */
  lemma {:induction false} ValueSplits(outputs: seq<OutputSpec>, freshAddress: string, count: nat)
    ensures SentValue(outputs, freshAddress, count) + KeptValue(outputs, freshAddress, count) == TotalAmount(outputs)
    decreases |outputs|
  {
    if |outputs| > 0 {
      ValueSplits(outputs[..|outputs| - 1], freshAddress, count);
    }
  }

  /** For a non-empty list, the recipients are exactly the addresses of
      its entries that are not dust allowances and do not pay the fresh
      address, in order. */
  lemma {:induction false} RecipientsAre(outputs: seq<OutputSpec>, freshAddress: string, count: nat)
    requires count > 0
    ensures var r := SentRecipients(outputs, freshAddress, count);
      && (forall a :: a in r <==> exists i :: 0 <= i < |outputs| && outputs[i].address == a
                                             && !outputs[i].isDustAllowance && a != freshAddress)
      && freshAddress !in r
    decreases |outputs|
  {
    if |outputs| > 0 {
      var init := outputs[..|outputs| - 1];
      RecipientsAre(init, freshAddress, count);
      assert forall i :: 0 <= i < |init| ==> init[i] == outputs[i];
    }
  }

  /** The loop over the unlock blocks: the signature of the first block
      of type `SIG_LOCKED_SINGLE_OUTPUT_TYPE`, which has the value of the
      signature unlock type. */
  method FindSignature(unlocks: seq<Unlock>) returns (r: ReportedSignature)
    ensures r == FirstSignature(unlocks)
  {
    r := EmptySignature;
    var i := 0;
    while i < |unlocks|
      invariant 0 <= i <= |unlocks|
      invariant FirstSignature(unlocks) == FirstSignature(unlocks[i..])
    {
      if UnlockType(unlocks[i]) == SIG_LOCKED_SINGLE_OUTPUT_TYPE {
        r := UnlockSignature(unlocks[i].signature.signature);
        return;
      }
      assert unlocks[i..][1..] == unlocks[i + 1..];
      i := i + 1;
    }
  }

  /** What `signOperation` emits: `device-signature-requested`, then
      `device-signature-granted` and `signed` once the payload is
      submitted. */
  datatype SignEvent = SignatureRequested | SignatureGranted | Signed(signedOperation: SignedOperation)

  /** The events emitted, and the error the observable ends with, if any. */
  datatype Emission = Emission(events: seq<SignEvent>, error: Option<Failure>)

  /** `signOperation` after the payload is built; `submitted` is the
      node's answer to `messageSubmit`, `now` stands for `new Date()`. */
  function LegacyEmission(payload: Result<LegacyPayload>, account: Account, outputs: seq<OutputSpec>,
                          submitted: Result<()>, now: int): Emission
  {
    if payload.Err? then Emission([SignatureRequested], Some(payload.error))
    else if submitted.Err? then Emission([SignatureRequested], Some(submitted.error))
    else
      var value := SentValue(outputs, account.freshAddress, |outputs|);
      var recipients := SentRecipients(outputs, account.freshAddress, |outputs|);
      var operation := BuildOptimisticOperation(account, value, recipients, [account.freshAddress], now);
      Emission([SignatureRequested, SignatureGranted, Signed(SignedOperation(operation, FirstSignature(payload.value.unlocks)))],
               None)
  }

  /** `signOperation(account, deviceId, client, inputs, outputs, indexation)`. */
  method LegacySignOperation(app: IotaHw.IotaApp, codec: LegacyCodec, account: Account, inputs: seq<UtxoInput>,
                             outputs: seq<OutputSpec>, indexation: Option<Indexation>, submitted: Result<()>, now: int)
    returns (e: Emission)
    modifies app.transport
    ensures var o := LegacyPayloadOutcome(old(app.transport.state), codec, inputs, outputs, indexation);
      app.transport.Performed(o.commands) && e == LegacyEmission(o.result, account, outputs, submitted, now)
  {
    var payload := LegacyBuildTransactionPayload(app, codec, inputs, outputs, indexation);
    if payload.Err? {
      return Emission([SignatureRequested], Some(payload.error));
    }
    if submitted.Err? {
      return Emission([SignatureRequested], Some(submitted.error));
    }
    var value, recipients := TallyOutputs(account, outputs);
    var signature := FindSignature(payload.value.unlocks);
    var operation := BuildOptimisticOperation(account, value, recipients, [account.freshAddress], now);
    e := Emission([SignatureRequested, SignatureGranted, Signed(SignedOperation(operation, signature))], None);
  }

  /** A signed operation reports the value and recipients of the counted
      outputs, the fresh address as sender, and an `undefined` signature:
      the payload has at least one unlock, none of which was read from the
      device. */
  lemma LegacyReport(s: DeviceState, codec: LegacyCodec, account: Account, inputs: seq<UtxoInput>,
                     outputs: seq<OutputSpec>, indexation: Option<Indexation>, now: int)
    requires LegacyPayloadOutcome(s, codec, inputs, outputs, indexation).result.Ok?
    ensures var e := LegacyEmission(LegacyPayloadOutcome(s, codec, inputs, outputs, indexation).result,
                                    account, outputs, Ok(()), now);
      && e.error.None? && |e.events| == 3 && e.events[2].Signed?
      && var signed := e.events[2].signedOperation;
      && signed.signature == UnlockSignature(None)
      && signed.operation.value == SentValue(outputs, account.freshAddress, |outputs|)
      && signed.operation.recipients == SentRecipients(outputs, account.freshAddress, |outputs|)
      && signed.operation.senders == [account.freshAddress]
  {
    LegacyPayloadProperties(s, codec, inputs, outputs, indexation);
    var p := LegacyPayloadOutcome(s, codec, inputs, outputs, indexation).result.value;
    assert p.unlocks[0] == UnboundUnlock;
  }
}
