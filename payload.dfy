/** `js-signOperation.ts`, after input selection: the Stardust transaction
    payload (essence, inputs commitment, unlocks), the device commands that
    get it signed, and the operation shown while it is broadcast. */
module StardustPayload {
  import opened Wrappers
  import opened Bytes
  import opened Text
  import opened Apdu
  import opened Transport
  import opened WalletTypes
  import opened InputSelection
  import IotaUtils
  import IotaHw
  import DataBuffer

  const TRANSACTION_ESSENCE_TYPE := 1
  const TRANSACTION_PAYLOAD_TYPE := 6
  const SIGNATURE_UNLOCK_TYPE := 0
  const REFERENCE_UNLOCK_TYPE := 1
  const ED25519_SIGNATURE_TYPE := 0

  /** A Blake2b-256 digest. */
  type Digest = d: seq<byte> | |d| == 32 witness Zeros(32)

  /** A transaction essence (`ITransactionEssence`). */
  datatype Essence = Essence(
    essenceType: int,
    networkId: string,
    inputs: seq<UtxoInput>,
    inputsCommitment: string,
    outputs: seq<Output>,
    payload: Option<seq<byte>>)

  /** The library code the payload is built with: `serializeOutput`,
      `Blake2b.sum256` and `serializeTransactionEssence`. */
  datatype Codec = Codec(
    serializeOutput: Output -> seq<byte>,
    blake2b256: seq<byte> -> Digest,
    serializeEssence: Essence -> seq<byte>)

  datatype Signature = Signature(signatureType: int, publicKey: Option<seq<byte>>, signature: Option<seq<byte>>)

  /** An unlock; `None` is `undefined`. */
  datatype Unlock = SignatureUnlock(signature: Signature) | ReferenceUnlock(reference: Option<seq<byte>>)

  function UnlockType(u: Unlock): int
  {
    if u.SignatureUnlock? then SIGNATURE_UNLOCK_TYPE else REFERENCE_UNLOCK_TYPE
  }

  datatype TransactionPayload = TransactionPayload(payloadType: int, essence: Essence, unlocks: seq<Unlock>)

  /** The properties the unlock loop reads from `_signSingle`'s result. */
  datatype SignResponse = SignResponse(
    signatureType: Option<int>,
    reference: Option<seq<byte>>,
    publicKey: Option<seq<byte>>,
    signature: Option<seq<byte>>)

  /** `_signSingle` resolves to a Struct layout that was never bound to the
      answer's bytes, so each of these properties reads `undefined`,
      whatever the layout. */
  function ReadResponse(layout: seq<Field>): (r: SignResponse)
    ensures r.signatureType.None? && r.reference.None? && r.publicKey.None? && r.signature.None?
  {
    UnboundResponse
  }

  const UnboundResponse := SignResponse(None, None, None, None)

  /** The unlock for one input: a reference unlock when `signature_type`
      is truthy, else an Ed25519 signature unlock. */
  function UnlockOf(response: SignResponse): (u: Unlock)
    ensures u.ReferenceUnlock? <==> response.signatureType.Some? && response.signatureType.value != 0
    ensures u.ReferenceUnlock? ==> u.reference == response.reference
    ensures u.SignatureUnlock? ==>
      u.signature == Signature(ED25519_SIGNATURE_TYPE, response.publicKey, response.signature)
  {
    if response.signatureType.Some? && response.signatureType.value != 0
    then ReferenceUnlock(response.reference)
    else SignatureUnlock(Signature(ED25519_SIGNATURE_TYPE, response.publicKey, response.signature))
  }

  /** The unlock every input actually gets. */
  const UnboundUnlock := SignatureUnlock(Signature(ED25519_SIGNATURE_TYPE, None, None))

  /** The single output of the essence: a basic output to the recipient,
      locked by an Ed25519 address unlock condition. */
  function RecipientOutput(recipient: string, amount: nat): (o: Output)
    ensures o.outputType == BASIC_OUTPUT_TYPE && o.amount == amount
    ensures RemainderAddress(o) == Some(recipient)
  {
    var o := Output(BASIC_OUTPUT_TYPE, amount,
                    [UnlockCondition(ADDRESS_UNLOCK_CONDITION_TYPE, Address(ED25519_ADDRESS_TYPE, recipient))]);
    assert FindAddressUnlock(o.unlockConditions) == Some(o.unlockConditions[0]);
    o
  }

  /** What is fed to the inputs-commitment hasher: the digest of each
      consumed output's serialisation, in input order. */
  function HashedOutputs(codec: Codec, inputs: seq<SelectedInput>): (r: seq<byte>)
    ensures |r| == 32 * |inputs|
  {
    if |inputs| == 0 then []
    else HashedOutputs(codec, inputs[..|inputs| - 1])
         + codec.blake2b256(codec.serializeOutput(inputs[|inputs| - 1].consumingOutput))
  }

  /** The digest of input `i`'s consumed output sits at bytes 32i .. 32i+32
      of what the hasher is fed (section "Inputs Commitment" of TIP-20). */
  lemma {:induction false} HashedOutputsLayout(codec: Codec, inputs: seq<SelectedInput>, i: nat)
    requires i < |inputs|
    ensures HashedOutputs(codec, inputs)[32 * i .. 32 * i + 32]
            == codec.blake2b256(codec.serializeOutput(inputs[i].consumingOutput))
    decreases |inputs|
  {
    var n := |inputs| - 1;
    var prefix := HashedOutputs(codec, inputs[..n]);
    var last := codec.blake2b256(codec.serializeOutput(inputs[n].consumingOutput));
    assert HashedOutputs(codec, inputs) == prefix + last;
    if i < n {
      HashedOutputsLayout(codec, inputs[..n], i);
      assert inputs[..n][i] == inputs[i];
      assert (prefix + last)[32 * i .. 32 * i + 32] == prefix[32 * i .. 32 * i + 32];
    } else {
      assert (prefix + last)[32 * i .. 32 * i + 32] == last;
    }
  }

  /** `inputsCommitment`: the hex of the Blake2b-256 digest of the fed
      bytes, with the "0x" prefix. */
  function CommitmentOf(codec: Codec, inputs: seq<SelectedInput>): (r: string)
    ensures |r| == 66 && r[..2] == "0x"
  {
    "0x" + ToHex(codec.blake2b256(HashedOutputs(codec, inputs)))
  }

  /** Feeds the hasher one consumed output at a time. The incremental
      Blake2b hasher's digest is that of the concatenation it was fed. */
  method InputsCommitment(codec: Codec, inputs: seq<SelectedInput>) returns (commitment: string)
    ensures commitment == CommitmentOf(codec, inputs)
  {
    var fed: seq<byte> := [];
    for i := 0 to |inputs|
      invariant fed == HashedOutputs(codec, inputs[..i])
    {
      assert inputs[..i + 1][..i] == inputs[..i];
      fed := fed + codec.blake2b256(codec.serializeOutput(inputs[i].consumingOutput));
    }
    assert inputs[..|inputs|] == inputs;
    commitment := "0x" + ToHex(codec.blake2b256(fed));
  }

  /** The essence's inputs: the UTXO input of each selected input. */
  function InputsOf(inputs: seq<SelectedInput>): (r: seq<UtxoInput>)
    ensures |r| == |inputs| && forall i :: 0 <= i < |inputs| ==> r[i] == inputs[i].input
  {
    seq(|inputs|, i requires 0 <= i < |inputs| => inputs[i].input)
  }

  /** The essence for the selected inputs: one output to the recipient and
      no payload; a remainder found by input selection is not in it. */
  function EssenceOf(codec: Codec, networkId: string, transaction: Transaction, inputs: seq<SelectedInput>): Essence
  {
    Essence(TRANSACTION_ESSENCE_TYPE, networkId, InputsOf(inputs), CommitmentOf(codec, inputs),
            [RecipientOutput(transaction.recipient, transaction.amount)], None)
  }

  /** The device's answer to `SIGN_SINGLE` for input `i` (what `Respond`
      gives for that command). */
  function SignAnswer(s: DeviceState, i: int): Result<seq<byte>>
  {
    if INS_SIGN_SINGLE in s.refused then Err(DeviceError(s.refused[INS_SIGN_SINGLE]))
    else Ok(if 0 <= i < |s.signAnswers| then s.signAnswers[i] else [])
  }

  /** One iteration of the unlock loop: the unlock for input `i`, or why
      `_signSingle(i)` rejected. An answer is accepted when it starts with
      the discriminator 0 or 1 (`IotaHw.SignSingleResult`); the unlock does
      not depend on which. */
  function SignStep(s: DeviceState, i: int): Result<Unlock>
  {
    var answer := SignAnswer(s, i);
    if answer.Err? then Err(answer.error)
    else if |answer.value| > 0 && (answer.value[0] == 0 || answer.value[0] == 1) then Ok(UnlockOf(UnboundResponse))
    else Err(Thrown("packable error: Invalid variant"))
  }

  /** Signing inputs 0 .. n-1 one after the other on device state `s`,
      stopping at the first failure. */
  function SignAll(s: DeviceState, n: nat): Outcome<seq<Unlock>>
  {
    if n == 0 then Outcome([], Ok([]))
    else
      var prev := SignAll(s, n - 1);
      if prev.result.Err? then prev
      else
        var step := SignStep(s, n - 1);
        Outcome(prev.commands + [IotaHw.SignSingleCommand(n - 1)],
                if step.Err? then Err(step.error) else Ok(prev.result.value + [step.value]))
  }

  /** Input `i` can be signed on `s`. */
  predicate Signable(s: DeviceState, i: nat)
  {
    SignStep(s, i).Ok?
  }

  /** Input `i` can be signed exactly when the device does not refuse
      `SIGN_SINGLE` and its answer starts with a known discriminator. */
  lemma SignableIff(s: DeviceState, i: nat)
    ensures Signable(s, i) <==>
      && INS_SIGN_SINGLE !in s.refused
      && i < |s.signAnswers| && |s.signAnswers[i]| > 0
      && (s.signAnswers[i][0] == 0 || s.signAnswers[i][0] == 1)
  {
  }

  /** The signing loop asks for the inputs in order, stops at the first
      one the device does not sign, and otherwise gives one signature
      unlock per input. */
  lemma {:induction false} SignAllShape(s: DeviceState, n: nat)
    ensures var o := SignAll(s, n);
      && |o.commands| <= n
      && (forall i :: 0 <= i < |o.commands| ==> o.commands[i] == IotaHw.SignSingleCommand(i))
      && (forall i :: 0 <= i < |o.commands| - 1 ==> Signable(s, i))
      && (o.result.Ok? <==> forall i :: 0 <= i < n ==> Signable(s, i))
      && (o.result.Ok? ==> |o.commands| == n && o.result.value == seq(n, _ => UnboundUnlock))
      && (o.result.Err? ==> |o.commands| >= 1 && !Signable(s, |o.commands| - 1))
  {
    if n > 0 {
      SignAllShape(s, n - 1);
      var prev := SignAll(s, n - 1);
      var o := SignAll(s, n);
      if prev.result.Ok? {
        SignAllNext(s, n - 1);
        assert o.commands == prev.commands + [IotaHw.SignSingleCommand(n - 1)];
        forall i | 0 <= i < |o.commands|
          ensures o.commands[i] == IotaHw.SignSingleCommand(i)
        {
          if i < |prev.commands| {
            assert o.commands[i] == prev.commands[i];
          }
        }
        if Signable(s, n - 1) {
          assert SignStep(s, n - 1) == Ok(UnboundUnlock);
          assert o.result.value == prev.result.value + [UnboundUnlock];
          assert o.result.value == seq(n, _ => UnboundUnlock);
        }
      } else {
        assert o == prev;
        assert !Signable(s, |prev.commands| - 1);
      }
    }
  }

  /** Signing leaves the device state as it was. */
  lemma {:induction false} SignAllKeepsState(s: DeviceState, n: nat)
    ensures ApplyAll(s, SignAll(s, n).commands) == s
  {
    if n > 0 {
      SignAllKeepsState(s, n - 1);
      var prev := SignAll(s, n - 1);
      if prev.result.Ok? {
        var c := IotaHw.SignSingleCommand(n - 1);
        assert SignAll(s, n).commands == prev.commands + [c];
        ApplyAllSnoc(s, prev.commands, c);
        SignSingleKeeps(s, n - 1);
      }
    }
  }

  /** `SIGN_SINGLE` does not change the device state. */
  lemma SignSingleKeeps(s: DeviceState, i: int)
    ensures Apply(s, IotaHw.SignSingleCommand(i)) == s
  {
  }

  /** The commands that write the essence and let the user confirm it. */
  function EssenceCommands(essenceBytes: seq<byte>): seq<Command>
  {
    [DataBuffer.WriteBlockCommand(0, essenceBytes), IotaHw.PrepareSigningCommand(0, 0, 0, 0), IotaHw.ConfirmEssenceCommand()]
  }

  /** The device part: write block 0, prepare signing, confirm, then sign
      every input. The first three are not awaited, so their failures do
      not stop the signing. */
  function SigningOutcome(s: DeviceState, essenceBytes: seq<byte>, n: nat): Outcome<seq<Unlock>>
  {
    var pre := EssenceCommands(essenceBytes);
    var signing := SignAll(ApplyAll(s, pre), n);
    Outcome(pre + signing.commands, signing.result)
  }

  /** The payload once inputs are selected. */
  function PayloadForSelection(s: DeviceState, codec: Codec, networkId: string, transaction: Transaction,
                               selection: Result<Selected>): Outcome<TransactionPayload>
  {
    if selection.Err? then Outcome([], Err(selection.error))
    else
      var essence := EssenceOf(codec, networkId, transaction, selection.value.inputs);
      var signing := SigningOutcome(s, codec.serializeEssence(essence), |selection.value.inputs|);
      Outcome(signing.commands,
              if signing.result.Err? then Err(signing.result.error)
              else Ok(TransactionPayload(TRANSACTION_PAYLOAD_TYPE, essence, signing.result.value)))
  }

  /** The selection `buildTransactionPayload` makes: one payment to the
      recipient, from the account's fresh address, cut off after five
      empty answers. */
  function SelectionFor(account: Account, pages: seq<seq<OutputRecord>>, transaction: Transaction): Result<Selected>
  {
    CalculateInputsOutcome(account.freshAddress, pages, [Payment(transaction.recipient, transaction.amount)], DEFAULT_ZERO_COUNT)
  }

  /** `buildTransactionPayload(account, transport, transaction)` on device
      state `s`, with the indexer answering `pages`. */
  function PayloadOutcome(s: DeviceState, codec: Codec, account: Account, pages: seq<seq<OutputRecord>>,
                          transaction: Transaction): Outcome<TransactionPayload>
  {
    var networkId := IotaUtils.GetNetworkId(account.currencyId);
    if networkId.Err? then Outcome([], Err(networkId.error))
    else PayloadForSelection(s, codec, networkId.value, transaction, SelectionFor(account, pages, transaction))
  }

  /** `buildTransactionPayload`. */
  method BuildTransactionPayload(app: IotaHw.IotaApp, codec: Codec, account: Account, pages: seq<seq<OutputRecord>>,
                                 transaction: Transaction) returns (r: Result<TransactionPayload>)
    modifies app.transport
    ensures var o := PayloadOutcome(old(app.transport.state), codec, account, pages, transaction);
      app.transport.Performed(o.commands) && r == o.result
  {
    var networkId := IotaUtils.GetNetworkId(account.currencyId);
    if networkId.Err? {
      return Err(networkId.error);
    }
    var selection := CalculateInputs(account.freshAddress, pages, [Payment(transaction.recipient, transaction.amount)],
                                     DEFAULT_ZERO_COUNT);
    r := PayloadFromSelection(app, codec, networkId.value, transaction, selection);
  }

  /** The part of `buildTransactionPayload` after `calculateInputs`. */
  method PayloadFromSelection(app: IotaHw.IotaApp, codec: Codec, networkId: string, transaction: Transaction,
                              selection: Result<Selected>) returns (r: Result<TransactionPayload>)
    modifies app.transport
    ensures var o := PayloadForSelection(old(app.transport.state), codec, networkId, transaction, selection);
      app.transport.Performed(o.commands) && r == o.result
  {
    if selection.Err? {
      return Err(selection.error);
    }
    var inputs := selection.value.inputs;
    var o := RecipientOutput(transaction.recipient, transaction.amount);
    var commitment := InputsCommitment(codec, inputs);
    var essence := Essence(TRANSACTION_ESSENCE_TYPE, networkId, InputsOf(inputs), commitment, [o], None);
    assert essence == EssenceOf(codec, networkId, transaction, inputs);
    var essenceBytes := codec.serializeEssence(essence);
    var unlocks := SignEssence(app, essenceBytes, |inputs|);
    if unlocks.Err? {
      return Err(unlocks.error);
    }
    r := Ok(TransactionPayload(TRANSACTION_PAYLOAD_TYPE, essence, unlocks.value));
  }

  /** Writes the essence, prepares signing, asks for confirmation, then
      signs the inputs. */
  method SignEssence(app: IotaHw.IotaApp, essenceBytes: seq<byte>, n: nat) returns (r: Result<seq<Unlock>>)
    modifies app.transport
    ensures var o := SigningOutcome(old(app.transport.state), essenceBytes, n);
      app.transport.Performed(o.commands) && r == o.result
  {
    ghost var s0 := app.transport.state;
    ghost var t0 := app.transport.trace;
    WriteEssence(app, essenceBytes);
    ghost var pre := EssenceCommands(essenceBytes);
    r := SignInputs(app, n);
    TraceAppend(t0, pre, SignAll(ApplyAll(s0, pre), n).commands);
    ApplyAllAppend(s0, pre, SignAll(ApplyAll(s0, pre), n).commands);
  }

  /** `_writeDataBlock(0, essence)`, `_prepareSigning(0, 0, 0, 0)` and
      `_userConfirmEssence()`, none of them awaited: what they answer is
      dropped. */
  method WriteEssence(app: IotaHw.IotaApp, essenceBytes: seq<byte>)
    modifies app.transport
    ensures app.transport.Performed(EssenceCommands(essenceBytes))
  {
    ghost var s0, t0 := app.transport.state, app.transport.trace;
    var _ := app.WriteDataBlock(0, essenceBytes);
    ghost var s1, t1 := app.transport.state, app.transport.trace;
    var _ := app.PrepareSigning(0, 0, 0, 0);
    ghost var s2, t2 := app.transport.state, app.transport.trace;
    app.UserConfirmEssence();
    PerformedThree(t0, s0, DataBuffer.WriteBlockCommand(0, essenceBytes), IotaHw.PrepareSigningCommand(0, 0, 0, 0),
                   IotaHw.ConfirmEssenceCommand(), t1, s1, t2, s2, app.transport.trace, app.transport.state);
  }

  /** `for (index = 0; index < n; index++) unlocks.push(... await _signSingle(index) ...)`. */
  method SignInputs(app: IotaHw.IotaApp, n: nat) returns (r: Result<seq<Unlock>>)
    modifies app.transport
    ensures var o := SignAll(old(app.transport.state), n);
      app.transport.Performed(o.commands) && r == o.result
  {
    ghost var s0 := app.transport.state;
    ghost var t0 := app.transport.trace;
    var unlocks: seq<Unlock> := [];
    var index := 0;
    while index < n
      invariant 0 <= index <= n
      invariant SignAll(s0, index).result == Ok(unlocks)
      invariant app.transport.trace == t0 + SignAll(s0, index).commands && app.transport.state == s0
    {
      ghost var before := app.transport.trace;
      var step := SignOne(app, index);
      SignAllNext(s0, index);
      TraceAppend(t0, SignAll(s0, index).commands, [IotaHw.SignSingleCommand(index)]);
      assert app.transport.trace == t0 + SignAll(s0, index + 1).commands;
      if step.Err? {
        SignAllKeepsState(s0, index + 1);
        SignAllAfterFailure(s0, index + 1, n);
        return Err(step.error);
      }
      unlocks := unlocks + [step.value];
      index := index + 1;
    }
    SignAllKeepsState(s0, n);
    r := Ok(unlocks);
  }

  /** `await _signSingle(index)` and the unlock built from its result. */
  method SignOne(app: IotaHw.IotaApp, index: nat) returns (r: Result<Unlock>)
    modifies app.transport
    ensures app.transport.trace == old(app.transport.trace) + [IotaHw.SignSingleCommand(index)]
    ensures app.transport.state == old(app.transport.state)
    ensures r == SignStep(old(app.transport.state), index)
  {
    ghost var s0 := app.transport.state;
    var response := app.SignSingle(index);
    ApplyAllSingle(s0, IotaHw.SignSingleCommand(index));
    assert Respond(s0, IotaHw.SignSingleCommand(index)) == SignAnswer(s0, index);
    assert response.Ok? ==> ReadResponse(response.value) == UnboundResponse;
    r := if response.Err? then Err(response.error) else Ok(UnlockOf(ReadResponse(response.value)));
  }

  /** One more input, once the earlier ones were signed. */
  lemma SignAllNext(s: DeviceState, k: nat)
    requires SignAll(s, k).result.Ok?
    ensures var prev := SignAll(s, k);
      var step := SignStep(s, k);
      SignAll(s, k + 1) == Outcome(prev.commands + [IotaHw.SignSingleCommand(k)],
                                   if step.Err? then Err(step.error) else Ok(prev.result.value + [step.value]))
  {
  }

  /** Once signing failed, asking for more inputs changes nothing. */
  lemma {:induction false} SignAllAfterFailure(s: DeviceState, k: nat, n: nat)
    requires k <= n && SignAll(s, k).result.Err?
    ensures SignAll(s, n) == SignAll(s, k)
    decreases n
  {
    if k < n {
      SignAllAfterFailure(s, k, n - 1);
    }
  }

  /** What a successful payload holds, and the commands in the order the
      device receives them. */
  lemma PayloadProperties(s: DeviceState, codec: Codec, account: Account, pages: seq<seq<OutputRecord>>,
                          transaction: Transaction)
    ensures var o := PayloadOutcome(s, codec, account, pages, transaction);
      var selection := SelectionFor(account, pages, transaction);
      && (IotaUtils.GetNetworkId(account.currencyId).Err? || selection.Err? ==> o.commands == [])
      && (o.result.Ok? ==>
            var p := o.result.value;
            var inputs := selection.value.inputs;
            && p.payloadType == TRANSACTION_PAYLOAD_TYPE
            && IotaUtils.GetNetworkId(account.currencyId) == Ok(p.essence.networkId)
            && p.essence.inputs == InputsOf(inputs)
            && p.essence.inputsCommitment == CommitmentOf(codec, inputs)
            && p.essence.outputs == [RecipientOutput(transaction.recipient, transaction.amount)]
            && p.essence.payload.None?
            && p.unlocks == seq(|inputs|, _ => UnboundUnlock)
            && |o.commands| == 3 + |inputs|)
      && (|o.commands| > 0 ==>
            var essence := EssenceOf(codec, IotaUtils.GetNetworkId(account.currencyId).value, transaction,
                                     selection.value.inputs);
            && |o.commands| <= 3 + |selection.value.inputs|
            && o.commands[..3] == EssenceCommands(codec.serializeEssence(essence))
            && forall i :: 3 <= i < |o.commands| ==> o.commands[i] == IotaHw.SignSingleCommand(i - 3))
  {
    var networkId := IotaUtils.GetNetworkId(account.currencyId);
    var selection := SelectionFor(account, pages, transaction);
    if networkId.Ok? && selection.Ok? {
      var essence := EssenceOf(codec, networkId.value, transaction, selection.value.inputs);
      var pre := EssenceCommands(codec.serializeEssence(essence));
      SignAllShape(ApplyAll(s, pre), |selection.value.inputs|);
    }
  }

  /** `buildOptimisticOperation({account, value, recipients, senders})`;
      `now` stands for `new Date()`. */
  function BuildOptimisticOperation(account: Account, value: nat, recipients: seq<string>, senders: seq<string>,
                                    now: int): (op: Operation)
    ensures op.id == account.id + "--OUT" && op.accountId == account.id
    ensures op.hash == "" && op.opType == "OUT" && op.fee == 0
    ensures op.blockHash.None? && op.blockHeight.None?
    ensures op.value == value && op.senders == senders && op.recipients == recipients
    ensures op.date == now && op.extra == map[]
  {
    Operation(account.id + "--OUT", "", "OUT", value, 0, None, None, senders, recipients, account.id, now, map[])
  }

  /** The signature `signOperation` reports: `""` until an unlock of the
      signature type is found, then that unlock's signature, which may be
      `undefined`. */
  datatype ReportedSignature = EmptySignature | UnlockSignature(value: Option<seq<byte>>)

  function FirstSignature(unlocks: seq<Unlock>): (r: ReportedSignature)
    ensures r.UnlockSignature? <==> exists i :: 0 <= i < |unlocks| && UnlockType(unlocks[i]) == SIGNATURE_UNLOCK_TYPE
    ensures r.UnlockSignature? ==> exists i :: 0 <= i < |unlocks| && unlocks[i].SignatureUnlock?
                                               && r.value == unlocks[i].signature.signature
                                               && forall j :: 0 <= j < i ==> !unlocks[j].SignatureUnlock?
  {
    if |unlocks| == 0 then EmptySignature
    else if unlocks[0].SignatureUnlock? then UnlockSignature(unlocks[0].signature.signature)
    else
      var rest := FirstSignature(unlocks[1..]);
      assert forall i :: 1 <= i < |unlocks| ==> unlocks[i] == unlocks[1..][i - 1];
      rest
  }

  /** What `signOperation` emits once the payload is built: the optimistic
      operation for the transaction's amount, with no recipients and the
      fresh address as sender, and the reported signature. */
  datatype SignedOperation = SignedOperation(operation: Operation, signature: ReportedSignature)

  function SignedOperationOf(account: Account, transaction: Transaction, payload: TransactionPayload, now: int): SignedOperation
  {
    SignedOperation(BuildOptimisticOperation(account, transaction.amount, [], [account.freshAddress], now),
                    FirstSignature(payload.unlocks))
  }

  /** Because `_signSingle`'s layout is never read, a payload with at least
      one input reports an `undefined` signature, and one with none reports
      `""`. */
  lemma ReportedSignatureIsUndefined(s: DeviceState, codec: Codec, account: Account, pages: seq<seq<OutputRecord>>,
                                     transaction: Transaction, now: int)
    requires PayloadOutcome(s, codec, account, pages, transaction).result.Ok?
    ensures var p := PayloadOutcome(s, codec, account, pages, transaction).result.value;
      var signed := SignedOperationOf(account, transaction, p, now);
      && signed.operation.value == transaction.amount && signed.operation.recipients == []
      && signed.operation.senders == [account.freshAddress]
      && signed.signature == (if |p.unlocks| == 0 then EmptySignature else UnlockSignature(None))
  {
    PayloadProperties(s, codec, account, pages, transaction);
    var p := PayloadOutcome(s, codec, account, pages, transaction).result.value;
    if |p.unlocks| > 0 {
      assert p.unlocks[0] == UnboundUnlock;
    }
  }
}
