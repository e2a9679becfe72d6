/** The Shimmer node and indexer client of the IOTA family: the balance of
    an address, and the translation of the blocks that touched it into
    operations of the account history. What the node answers is given:
    `outputOf` is the output the node returns for an output id,
    `senderKeyOf` the public-key hash of the first unlock condition of the
    output an input spends, `bech32` the "smr" address of a public-key
    hash, `blockOf` the block that includes a transaction and `timestampOf`
    the milestone time at which an output was booked. */
module IndexerApi {
  import opened Wrappers
  import opened Text
  import opened WalletTypes

  const TRANSACTION_PAYLOAD_TYPE := 6
  const BASIC_OUTPUT_TYPE := 3
  const ADDRESS_UNLOCK_CONDITION_TYPE := 0
  /** The height given to every operation, so that it is shown as
      confirmed. */
  const CONFIRMED_BLOCK_HEIGHT := 10

  /** An unlock condition; `pubKeyHash` is its address's key hash, read
      only for an address unlock condition. */
  datatype UnlockCondition = UnlockCondition(conditionType: int, pubKeyHash: string)

  /** An output as the node returns it; `amount` is its decimal string
      already read as a number. */
  datatype LedgerOutput = LedgerOutput(outputType: int, amount: nat, unlockConditions: seq<UnlockCondition>)

  /** An input of a transaction essence. */
  datatype LedgerInput = LedgerInput(transactionId: string, transactionOutputIndex: nat)

  datatype LedgerEssence = LedgerEssence(inputs: seq<LedgerInput>, outputs: seq<LedgerOutput>)

  datatype BlockPayload = BlockPayload(payloadType: int, essence: LedgerEssence)

  /** A block; a payload of a type other than 6 has no essence that is
      read, and its essence field is then irrelevant. */
  datatype Block = Block(payload: Option<BlockPayload>)

  /** `fetchSingleOutput(id)`: the output and whether it is spent. */
  datatype OutputResponse = OutputResponse(isSpent: bool, output: LedgerOutput)

  /** The answer of `getAccount`; `None` is `undefined`. */
  datatype AccountInfo = AccountInfo(blockHeight: int, balance: nat, spendableBalance: nat,
                                     nonce: Option<int>, lockedBalance: Option<nat>)

  /** `outputCheck`: a basic output whose only unlock condition is an
      address unlock condition. */
  predicate OutputCheck(output: LedgerOutput)
  {
    output.outputType == BASIC_OUTPUT_TYPE && |output.unlockConditions| == 1
    && output.unlockConditions[0].conditionType == ADDRESS_UNLOCK_CONDITION_TYPE
  }

  /** The address an output the check accepts pays. */
  function RecipientOf(output: LedgerOutput, bech32: string -> string): string
    requires OutputCheck(output)
  {
    bech32(output.unlockConditions[0].pubKeyHash)
  }

  /** The output id built for an input: its transaction id, a `"0"` and
      the output index in decimal. */
  function SpentOutputId(input: LedgerInput): string
  {
    input.transactionId + "0" + NatToDecimal(input.transactionOutputIndex)
  }

  /** The senders, one per input, in order. */
  function SendersOf(inputs: seq<LedgerInput>, senderKeyOf: string -> string, bech32: string -> string): (r: seq<string>)
    ensures |r| == |inputs|
    ensures forall i :: 0 <= i < |inputs| ==> r[i] == bech32(senderKeyOf(SpentOutputId(inputs[i])))
  {
    seq(|inputs|, i requires 0 <= i < |inputs| => bech32(senderKeyOf(SpentOutputId(inputs[i]))))
  }

  /** The recipients after the loop over the first outputs. */
  function RecipientsOf(outputs: seq<LedgerOutput>, bech32: string -> string): seq<string>
  {
    if |outputs| == 0 then []
    else
      var last := outputs[|outputs| - 1];
      RecipientsOf(outputs[..|outputs| - 1], bech32) + (if OutputCheck(last) then [RecipientOf(last, bech32)] else [])
  }

  /** The value after the loop over the first outputs: for an incoming
      transaction what the checked outputs pay `address`, for an outgoing
      one what they pay elsewhere. */
  function ValueOf(outputs: seq<LedgerOutput>, bech32: string -> string, address: string, outgoing: bool): nat
  {
    if |outputs| == 0 then 0
    else
      var last := outputs[|outputs| - 1];
      var counted := OutputCheck(last) && (if outgoing then RecipientOf(last, bech32) != address
                                           else RecipientOf(last, bech32) == address);
      ValueOf(outputs[..|outputs| - 1], bech32, address, outgoing) + (if counted then last.amount else 0)
  }

  /** What the checked outputs pay `address`. */
  function PaidTo(outputs: seq<LedgerOutput>, bech32: string -> string, address: string): nat
  {
    if |outputs| == 0 then 0
    else
      var last := outputs[|outputs| - 1];
      PaidTo(outputs[..|outputs| - 1], bech32, address)
        + (if OutputCheck(last) && RecipientOf(last, bech32) == address then last.amount else 0)
  }

  /** What all the checked outputs pay. */
  function CheckedTotal(outputs: seq<LedgerOutput>): nat
  {
    if |outputs| == 0 then 0
    else
      var last := outputs[|outputs| - 1];
      CheckedTotal(outputs[..|outputs| - 1]) + (if OutputCheck(last) then last.amount else 0)
  }

  /** `txToOp`: the operation of a block for the account `id` at
      `address`, or `None` (`null`) when the block holds no transaction. */
  function TxOperation(block: Option<Block>, id: string, address: string, timestamp: int, transactionId: string,
                       senderKeyOf: string -> string, bech32: string -> string): Option<Operation>
  {
    if block.None? || block.value.payload.None? || block.value.payload.value.payloadType != TRANSACTION_PAYLOAD_TYPE
    then None
    else
      var essence := block.value.payload.value.essence;
      var senders := SendersOf(essence.inputs, senderKeyOf, bech32);
      var outgoing := address in senders;
      var opType := if outgoing then "OUT" else "IN";
      Some(Operation(transactionId + "-" + opType, transactionId, opType,
                     ValueOf(essence.outputs, bech32, address, outgoing), 0, Some(""), Some(CONFIRMED_BLOCK_HEIGHT),
                     senders, RecipientsOf(essence.outputs, bech32), id, timestamp * 1000, map[]))
  }

  /** `txToOp`, with its loops over the inputs and the outputs. */
  method TxToOp(block: Option<Block>, id: string, address: string, timestamp: int, transactionId: string,
                senderKeyOf: string -> string, bech32: string -> string) returns (r: Option<Operation>)
    ensures r == TxOperation(block, id, address, timestamp, transactionId, senderKeyOf, bech32)
  {
    if block.None? || block.value.payload.None? || block.value.payload.value.payloadType != TRANSACTION_PAYLOAD_TYPE {
      return None;
    }
    var essence := block.value.payload.value.essence;
    var inputs, outputs := essence.inputs, essence.outputs;
    ghost var allSenders := SendersOf(inputs, senderKeyOf, bech32);
    var recipients: seq<string> := [];
    var senders: seq<string> := [];
    var value: nat := 0;
    var opType := "IN";
    for i := 0 to |inputs|
      invariant senders == allSenders[..i]
      invariant opType == if address in senders then "OUT" else "IN"
    {
      var sender := bech32(senderKeyOf(SpentOutputId(inputs[i])));
      senders := senders + [sender];
      if sender == address {
        opType := "OUT";
      }
    }
    assert senders == allSenders;
    ghost var outgoing := address in senders;
    for o := 0 to |outputs|
      invariant recipients == RecipientsOf(outputs[..o], bech32)
      invariant value == ValueOf(outputs[..o], bech32, address, outgoing)
    {
      assert outputs[..o + 1][..o] == outputs[..o];
      if OutputCheck(outputs[o]) {
        var recipient := bech32(outputs[o].unlockConditions[0].pubKeyHash);
        var amount := outputs[o].amount;
        if opType == "IN" && recipient == address {
          value := value + amount;
        } else if opType == "OUT" && recipient != address {
          value := value + amount;
        }
        recipients := recipients + [recipient];
      }
    }
    assert outputs[..|outputs|] == outputs;
    r := Some(Operation(transactionId + "-" + opType, transactionId, opType, value, 0, Some(""),
                        Some(CONFIRMED_BLOCK_HEIGHT), senders, recipients, id, timestamp * 1000, map[]));
  }

  /** A block gives no operation exactly when it is missing, has no
      payload, or its payload is not a transaction. */
  lemma TxOperationNull(block: Option<Block>, id: string, address: string, timestamp: int, transactionId: string,
                        senderKeyOf: string -> string, bech32: string -> string)
    ensures TxOperation(block, id, address, timestamp, transactionId, senderKeyOf, bech32).None?
            <==> block.None? || block.value.payload.None? || block.value.payload.value.payloadType != 6
  {
  }

  /** The operation of a transaction: outgoing exactly when one of the
      outputs it spends belonged to `address`, with the senders in input
      order, an id made of the transaction id and the direction, no fee,
      and the time in milliseconds. */
  lemma TxOperationFields(block: Option<Block>, id: string, address: string, timestamp: int, transactionId: string,
                          senderKeyOf: string -> string, bech32: string -> string)
    requires TxOperation(block, id, address, timestamp, transactionId, senderKeyOf, bech32).Some?
    ensures var op := TxOperation(block, id, address, timestamp, transactionId, senderKeyOf, bech32).value;
      var inputs := block.value.payload.value.essence.inputs;
      && (op.opType == "OUT" <==> exists i :: 0 <= i < |inputs| && bech32(senderKeyOf(SpentOutputId(inputs[i]))) == address)
      && (op.opType == "OUT" || op.opType == "IN")
      && |op.senders| == |inputs|
      && (forall i :: 0 <= i < |inputs| ==> op.senders[i] == bech32(senderKeyOf(SpentOutputId(inputs[i]))))
      && op.id == transactionId + "-" + op.opType && op.hash == transactionId
      && op.fee == 0 && op.blockHeight == Some(10) && op.blockHash == Some("")
      && op.accountId == id && op.date == timestamp * 1000 && op.extra == map[]
  {
    var inputs := block.value.payload.value.essence.inputs;
    var senders := SendersOf(inputs, senderKeyOf, bech32);
    if address in senders {
      var i :| 0 <= i < |senders| && senders[i] == address;
      assert bech32(senderKeyOf(SpentOutputId(inputs[i]))) == address;
    }
  }

  /** An incoming transaction's value is what its checked outputs pay
      `address`; an outgoing one's is what they pay elsewhere, so the
      outgoing value and the payments back to `address` (the remainder)
      make up everything the checked outputs pay. */
  lemma {:induction false} ValueSplits(outputs: seq<LedgerOutput>, bech32: string -> string, address: string)
    ensures ValueOf(outputs, bech32, address, false) == PaidTo(outputs, bech32, address)
    ensures ValueOf(outputs, bech32, address, true) + PaidTo(outputs, bech32, address) == CheckedTotal(outputs)
    decreases |outputs|
  {
    if |outputs| > 0 {
      ValueSplits(outputs[..|outputs| - 1], bech32, address);
    }
  }

  /** The recipients are the addresses of the checked outputs, one per
      checked output and in order, the remainder included. */
  lemma {:induction false} RecipientsAre(outputs: seq<LedgerOutput>, bech32: string -> string)
    ensures var r := RecipientsOf(outputs, bech32);
      && |r| <= |outputs|
      && (forall a :: a in r <==> exists i :: 0 <= i < |outputs| && OutputCheck(outputs[i])
                                             && RecipientOf(outputs[i], bech32) == a)
      && ((forall i :: 0 <= i < |outputs| ==> OutputCheck(outputs[i])) ==> |r| == |outputs|)
    decreases |outputs|
  {
    if |outputs| > 0 {
      var init := outputs[..|outputs| - 1];
      RecipientsAre(init, bech32);
      assert forall i :: 0 <= i < |init| ==> init[i] == outputs[i];
    }
  }

  /** `fetchAllTransactions` and the loop of `getOperations`: the
      operations of the outputs in `outputIds`, after the loop over the
      first of them. */
  function Operations(outputIds: seq<string>, id: string, address: string, blockOf: string -> Option<Block>,
                      timestampOf: string -> int, senderKeyOf: string -> string, bech32: string -> string): seq<Operation>
  {
    if |outputIds| == 0 then []
    else
      var last := outputIds[|outputIds| - 1];
      var op := TxOperation(blockOf(last), id, address, timestampOf(last), last, senderKeyOf, bech32);
      Operations(outputIds[..|outputIds| - 1], id, address, blockOf, timestampOf, senderKeyOf, bech32)
        + (if op.Some? then [op.value] else [])
  }

  /** `getOperations(id, address)`, given the ids the indexer lists for
      `address`; each output's transaction and timestamp are looked up by
      its id. */
  method GetOperations(outputIds: seq<string>, id: string, address: string, blockOf: string -> Option<Block>,
                       timestampOf: string -> int, senderKeyOf: string -> string, bech32: string -> string)
    returns (operations: seq<Operation>)
    ensures operations == Operations(outputIds, id, address, blockOf, timestampOf, senderKeyOf, bech32)
  {
    var transactions: seq<Option<Block>> := [];
    var timestamps: seq<int> := [];
    var transactionIds: seq<string> := [];
    for i := 0 to |outputIds|
      invariant |transactions| == |timestamps| == |transactionIds| == i
      invariant forall k :: 0 <= k < i ==> transactions[k] == blockOf(outputIds[k])
      invariant forall k :: 0 <= k < i ==> timestamps[k] == timestampOf(outputIds[k])
      invariant transactionIds == outputIds[..i]
    {
      transactions := transactions + [blockOf(outputIds[i])];
      timestamps := timestamps + [timestampOf(outputIds[i])];
      transactionIds := transactionIds + [outputIds[i]];
    }
    operations := [];
    for i := 0 to |transactions|
      invariant operations == Operations(outputIds[..i], id, address, blockOf, timestampOf, senderKeyOf, bech32)
    {
      assert outputIds[..i + 1][..i] == outputIds[..i];
      var operation := TxToOp(transactions[i], id, address, timestamps[i], transactionIds[i], senderKeyOf, bech32);
      if operation.Some? {
        operations := operations + [operation.value];
      }
    }
    assert outputIds[..|outputIds|] == outputIds;
  }

  /** The history holds exactly the operations of the outputs whose block
      is a transaction, no more than one per output. */
  lemma {:induction false} OperationsKept(outputIds: seq<string>, id: string, address: string,
                                          blockOf: string -> Option<Block>, timestampOf: string -> int,
                                          senderKeyOf: string -> string, bech32: string -> string)
    ensures var ops := Operations(outputIds, id, address, blockOf, timestampOf, senderKeyOf, bech32);
      && |ops| <= |outputIds|
      && forall op :: op in ops <==>
           (exists i :: 0 <= i < |outputIds| &&
              TxOperation(blockOf(outputIds[i]), id, address, timestampOf(outputIds[i]), outputIds[i], senderKeyOf, bech32)
              == Some(op))
    decreases |outputIds|
  {
    if |outputIds| > 0 {
      var init := outputIds[..|outputIds| - 1];
      OperationsKept(init, id, address, blockOf, timestampOf, senderKeyOf, bech32);
      assert forall i :: 0 <= i < |init| ==> init[i] == outputIds[i];
    }
  }

  /** The balance after the loop over the first output ids: the amounts of
      the unspent outputs. */
  function UnspentBalance(outputIds: seq<string>, outputOf: string -> OutputResponse): nat
  {
    if |outputIds| == 0 then 0
    else
      var response := outputOf(outputIds[|outputIds| - 1]);
      UnspentBalance(outputIds[..|outputIds| - 1], outputOf) + (if response.isSpent then 0 else response.output.amount)
  }

  /** The amounts of the spent outputs. */
  function SpentAmount(outputIds: seq<string>, outputOf: string -> OutputResponse): nat
  {
    if |outputIds| == 0 then 0
    else
      var response := outputOf(outputIds[|outputIds| - 1]);
      SpentAmount(outputIds[..|outputIds| - 1], outputOf) + (if response.isSpent then response.output.amount else 0)
  }

  /** The amounts of all the outputs. */
  function TotalAmount(outputIds: seq<string>, outputOf: string -> OutputResponse): nat
  {
    if |outputIds| == 0 then 0
    else TotalAmount(outputIds[..|outputIds| - 1], outputOf) + outputOf(outputIds[|outputIds| - 1]).output.amount
  }

  /** `fetchBalance(address)`, given the output ids the indexer lists. */
  method FetchBalance(outputIds: seq<string>, outputOf: string -> OutputResponse) returns (balance: nat)
    ensures balance == UnspentBalance(outputIds, outputOf)
  {
    balance := 0;
    for i := 0 to |outputIds|
      invariant balance == UnspentBalance(outputIds[..i], outputOf)
    {
      assert outputIds[..i + 1][..i] == outputIds[..i];
      var output := outputOf(outputIds[i]);
      if !output.isSpent {
        balance := balance + output.output.amount;
      }
    }
    assert outputIds[..|outputIds|] == outputIds;
  }

  /** The balance leaves out exactly the spent outputs: with them it is
      the sum of all the amounts, and with none spent it is that sum. */
  lemma {:induction false} BalanceSplits(outputIds: seq<string>, outputOf: string -> OutputResponse)
    ensures UnspentBalance(outputIds, outputOf) + SpentAmount(outputIds, outputOf) == TotalAmount(outputIds, outputOf)
    ensures (forall i :: 0 <= i < |outputIds| ==> !outputOf(outputIds[i]).isSpent) ==>
              UnspentBalance(outputIds, outputOf) == TotalAmount(outputIds, outputOf)
    decreases |outputIds|
  {
    if |outputIds| > 0 {
      var init := outputIds[..|outputIds| - 1];
      BalanceSplits(init, outputOf);
      assert forall i :: 0 <= i < |init| ==> init[i] == outputIds[i];
      if forall i :: 0 <= i < |outputIds| ==> !outputOf(outputIds[i]).isSpent {
        assert !outputOf(outputIds[|outputIds| - 1]).isSpent;
        assert SpentAmount(outputIds, outputOf) == SpentAmount(init, outputOf);
        SpentNone(init, outputOf);
      }
    }
  }

  /** With no output spent, there is no spent amount. */
  lemma {:induction false} SpentNone(outputIds: seq<string>, outputOf: string -> OutputResponse)
    requires forall i :: 0 <= i < |outputIds| ==> !outputOf(outputIds[i]).isSpent
    ensures SpentAmount(outputIds, outputOf) == 0
    decreases |outputIds|
  {
    if |outputIds| > 0 {
      var init := outputIds[..|outputIds| - 1];
      assert forall i :: 0 <= i < |init| ==> init[i] == outputIds[i];
      SpentNone(init, outputOf);
    }
  }

  /** `getAccount(address)`: the balance of the unspent outputs, all of it
      spendable. */
  method GetAccount(outputIds: seq<string>, outputOf: string -> OutputResponse) returns (r: AccountInfo)
    ensures r.balance == UnspentBalance(outputIds, outputOf) && r.spendableBalance == r.balance
    ensures r.blockHeight == CONFIRMED_BLOCK_HEIGHT && r.nonce.None? && r.lockedBalance.None?
  {
    var balance := FetchBalance(outputIds, outputOf);
    r := AccountInfo(CONFIRMED_BLOCK_HEIGHT, balance, balance, None, None);
  }
}
