/** `js-estimateMaxSpendable.ts`: everything the account holds can be sent. */
module MaxSpendable {
  import opened Wrappers
  import opened WalletTypes

  /** `estimateMaxSpendable({account, parentAccount, transaction})`. The
      promise always resolves, so the result is a plain value. */
  function EstimateMaxSpendable(account: Account, parentAccount: Option<Account>, transaction: Option<Transaction>): (r: nat)
    ensures r == account.balance
  {
    account.balance
  }

  /** Neither the parent account nor the transaction affects the estimate. */
  lemma EstimateIgnoresContext(account: Account, p: Option<Account>, p': Option<Account>, t: Option<Transaction>, t': Option<Transaction>)
    ensures EstimateMaxSpendable(account, p, t) == EstimateMaxSpendable(account, p', t')
  {
  }
}

/** `utils.ts`: the network-id table and the amount a transaction moves. */
module IotaUtils {
  import opened Wrappers
  import opened WalletTypes
  import opened MaxSpendable
  import IotaHw

  const SHIMMER_NETWORK_ID := "14364762045254553490"
  const IOTA_NETWORK_ID := "9374574019616453254"
  const INVALID_CURRENCY := "Invalid currency id in transaction"

  /** `dustAllowanceOutputAmount`. */
  const DUST_ALLOWANCE_OUTPUT_AMOUNT := 0

  /** `getNetworkId(currencyId)`. */
  function GetNetworkId(currencyId: string): (r: Result<string>)
    ensures r.Ok? <==> currencyId == "shimmer" || currencyId == "iota"
    ensures r.Err? ==> r.error == Thrown(INVALID_CURRENCY)
  {
    if currencyId == "shimmer" then Ok(SHIMMER_NETWORK_ID)
    else if currencyId == "iota" then Ok(IOTA_NETWORK_ID)
    else Err(Thrown(INVALID_CURRENCY))
  }

  /** The two networks have distinct ids, each a decimal numeral. */
  lemma NetworkIds()
    ensures GetNetworkId("shimmer") == Ok(SHIMMER_NETWORK_ID)
    ensures GetNetworkId("iota") == Ok(IOTA_NETWORK_ID)
    ensures SHIMMER_NETWORK_ID != IOTA_NETWORK_ID
    ensures Text.AllDigits(SHIMMER_NETWORK_ID) && Text.AllDigits(IOTA_NETWORK_ID)
  {
  }

  /** Every currency with a network id has an app mode on the device, but
      not the other way round: "shimmer_testnet" selects the Shimmer app and
      still has no network id. */
  lemma NetworkIdsHaveAppModes(k: IotaHw.Constants, currencyId: string)
    ensures GetNetworkId(currencyId).Ok? ==> IotaHw.AppMode(k, currencyId).Some?
    ensures IotaHw.AppMode(k, "shimmer_testnet").Some? && GetNetworkId("shimmer_testnet").Err?
  {
  }

  /** `calculateAmount({account, transaction})`. */
  function CalculateAmount(account: Account, transaction: Transaction): (r: nat)
    ensures transaction.useAllAmount ==> r == account.balance
    ensures !transaction.useAllAmount ==> r == transaction.amount
  {
    if transaction.useAllAmount
    then EstimateMaxSpendable(account, None, Some(transaction))
    else transaction.amount
  }
}

/** `js-getTransactionStatus.ts`: the checks run before a transaction can
    be signed. */
module TransactionStatus {
  import opened Wrappers
  import opened Text
  import opened WalletTypes
  import opened IotaUtils

  datatype StatusError =
    | RecipientRequired
    | InvalidAddressBecauseDestinationIsAlsoSource
    | AmountRequired
    | NotEnoughBalance(message: string)

  datatype Status = Status(
    amount: nat,
    errors: map<string, StatusError>,
    estimatedFees: nat,
    totalSpent: nat,
    warnings: map<string, StatusError>)

  /** What is wrong with the recipient, if anything. */
  function RecipientError(account: Account, transaction: Transaction): Option<StatusError>
  {
    if transaction.recipient == "" then Some(RecipientRequired)
    else if account.freshAddress == transaction.recipient then Some(InvalidAddressBecauseDestinationIsAlsoSource)
    else None
  }

  /** What is wrong with the amount, if anything. */
  function AmountError(account: Account, transaction: Transaction): Option<StatusError>
  {
    if transaction.amount == 0 && !transaction.useAllAmount then Some(AmountRequired)
    else if account.balance < CalculateAmount(account, transaction)
    then Some(NotEnoughBalance("balance: " + NatToDecimal(account.balance)))
    else None
  }

  /** The record holding the errors that are present. */
  function ErrorRecord(recipient: Option<StatusError>, amount: Option<StatusError>): (m: map<string, StatusError>)
    ensures "recipient" in m <==> recipient.Some?
    ensures "amount" in m <==> amount.Some?
    ensures recipient.Some? ==> m["recipient"] == recipient.value
    ensures amount.Some? ==> m["amount"] == amount.value
    ensures m.Keys <= {"recipient", "amount"}
  {
    var m: map<string, StatusError> := if recipient.Some? then map["recipient" := recipient.value] else map[];
    if amount.Some? then m["amount" := amount.value] else m
  }

  /** The status `getTransactionStatus` resolves to. */
  function StatusOf(account: Account, transaction: Transaction): Status
  {
    var amount := CalculateAmount(account, transaction);
    Status(amount, ErrorRecord(RecipientError(account, transaction), AmountError(account, transaction)), 0, amount, map[])
  }

  /** `getTransactionStatus(account, transaction)`: fills the error record
      by conditional assignments. */
  method GetTransactionStatus(account: Account, transaction: Transaction) returns (r: Status)
    ensures r == StatusOf(account, transaction)
  {
    var errors: map<string, StatusError> := map[];
    if transaction.recipient == "" {
      errors := errors["recipient" := RecipientRequired];
    } else {
      if account.freshAddress == transaction.recipient {
        errors := errors["recipient" := InvalidAddressBecauseDestinationIsAlsoSource];
      }
    }
    var amount := CalculateAmount(account, transaction);
    if transaction.amount == 0 && !transaction.useAllAmount {
      errors := errors["amount" := AmountRequired];
    } else if account.balance < amount {
      errors := errors["amount" := NotEnoughBalance("balance: " + NatToDecimal(account.balance))];
    }
    r := Status(amount, errors, 0, amount, map[]);
  }

  /** The recipient checks: an empty recipient is required, one equal to
      the account's own address is refused, any other is accepted. */
  lemma RecipientChecks(account: Account, transaction: Transaction)
    ensures var e := StatusOf(account, transaction).errors;
      && ("recipient" in e <==> transaction.recipient == "" || transaction.recipient == account.freshAddress)
      && (transaction.recipient == "" ==> e["recipient"] == RecipientRequired)
      && (transaction.recipient != "" && transaction.recipient == account.freshAddress ==>
            e["recipient"] == InvalidAddressBecauseDestinationIsAlsoSource)
  {
  }

  /** The amount checks: a zero amount without "send max" is required;
      otherwise the balance must cover the computed amount. */
  lemma AmountChecks(account: Account, transaction: Transaction)
    ensures var s := StatusOf(account, transaction);
      && (transaction.amount == 0 && !transaction.useAllAmount ==> s.errors["amount"] == AmountRequired)
      && (!(transaction.amount == 0 && !transaction.useAllAmount) ==>
            ("amount" in s.errors <==> account.balance < transaction.amount && !transaction.useAllAmount))
      && (transaction.useAllAmount ==> "amount" !in s.errors && s.amount == account.balance)
  {
  }

  /** Nothing is charged beyond the amount and nothing is warned about. */
  lemma StatusTotals(account: Account, transaction: Transaction)
    ensures var s := StatusOf(account, transaction);
      s.estimatedFees == 0 && s.totalSpent == s.amount && s.warnings == map[]
      && s.amount == (if transaction.useAllAmount then account.balance else transaction.amount)
  {
  }

  /** The test account's transactions to its own fresh address: the
      recipient is refused whatever the amount, an amount of 0 is required
      as well, and 10^15 is more than a balance of 2111000 covers. */
  lemma SameAddressExample(account: Account, transaction: Transaction)
    requires account.balance == 2111000 && account.freshAddress != "" && transaction.recipient == account.freshAddress
    requires transaction.amount == 1000000 && !transaction.useAllAmount
    ensures StatusOf(account, transaction).errors == map["recipient" := InvalidAddressBecauseDestinationIsAlsoSource]
  {
    assert AmountError(account, transaction) == None;
  }

  lemma AmountRequiredExample(account: Account, transaction: Transaction)
    requires account.balance == 2111000 && account.freshAddress != "" && transaction.recipient == account.freshAddress
    requires transaction.amount == 0 && !transaction.useAllAmount
    ensures StatusOf(account, transaction).errors ==
      map["recipient" := InvalidAddressBecauseDestinationIsAlsoSource, "amount" := AmountRequired]
  {
  }

  lemma NotEnoughBalanceExample(account: Account, transaction: Transaction)
    requires account.balance == 2111000 && account.freshAddress != "" && transaction.recipient == account.freshAddress
    requires transaction.amount == 1000000000000000 && !transaction.useAllAmount
    ensures StatusOf(account, transaction).errors ==
      map["recipient" := InvalidAddressBecauseDestinationIsAlsoSource, "amount" := NotEnoughBalance("balance: 2111000")]
  {
    RenderExampleBalance();
    assert "balance: " + NatToDecimal(2111000) == "balance: 2111000";
    assert AmountError(account, transaction) == Some(NotEnoughBalance("balance: 2111000"));
    assert RecipientError(account, transaction) == Some(InvalidAddressBecauseDestinationIsAlsoSource);
  }

  lemma RenderExampleBalance()
    ensures NatToDecimal(2111000) == "2111000"
  {
    assert NatToDecimal(2) == "2";
    assert NatToDecimal(21) == NatToDecimal(2) + "1";
    assert NatToDecimal(211) == NatToDecimal(21) + "1";
    assert NatToDecimal(2111) == NatToDecimal(211) + "1";
    assert NatToDecimal(21110) == NatToDecimal(2111) + "0";
    assert NatToDecimal(211100) == NatToDecimal(21110) + "0";
    assert NatToDecimal(2111000) == NatToDecimal(211100) + "0";
  }
}

/** `logic.ts`: the minimum balance an IOTA account must keep. */
module IotaLogic {
  const IOTA_MAX_MEMO_SIZE := 32
  const IOTA_MIN_ACCOUNT_BALANCE := 100000

  /** `computeMinimumIotaBalance(mode, nbAccountAssets)`: 0.1 IOTA per held
      asset, plus one for the account and one for an opt-in. */
  function ComputeMinimumIotaBalance(mode: string, nbAccountAssets: int): (r: int)
    ensures nbAccountAssets >= 0 ==> r >= IOTA_MIN_ACCOUNT_BALANCE
  {
    var base := 100000;
    var newAsset := if mode == "optIn" then 1 else 0;
    base * (1 + nbAccountAssets + newAsset)
  }

  /** `computeIotaMaxSpendable({accountBalance, nbAccountAssets, mode})`. */
  function ComputeIotaMaxSpendable(accountBalance: nat, nbAccountAssets: int, mode: string): (r: int)
    ensures r >= 0
    ensures nbAccountAssets >= 0 ==> r <= accountBalance
    ensures var spare := accountBalance - ComputeMinimumIotaBalance(mode, nbAccountAssets);
      r == if spare >= 0 then spare else 0
  {
    var minBalance := ComputeMinimumIotaBalance(mode, nbAccountAssets);
    var maxSpendable := accountBalance - minBalance;
    if maxSpendable >= 0 then maxSpendable else 0
  }

  /** An account without assets or opt-in keeps 0.1 IOTA, and one more
      held asset or an opt-in each adds exactly 0.1 IOTA. */
  lemma MinimumBalanceSteps(mode: string, n: int)
    requires mode != "optIn"
    ensures ComputeMinimumIotaBalance(mode, 0) == IOTA_MIN_ACCOUNT_BALANCE
    ensures ComputeMinimumIotaBalance(mode, n + 1) == ComputeMinimumIotaBalance(mode, n) + IOTA_MIN_ACCOUNT_BALANCE
    ensures ComputeMinimumIotaBalance("optIn", n) == ComputeMinimumIotaBalance(mode, n) + IOTA_MIN_ACCOUNT_BALANCE
  {
  }

  /** An opt-in never leaves more to spend, and neither do more assets. */
  lemma MaxSpendableMonotone(balance: nat, n: int, n': int, mode: string)
    requires n <= n'
    ensures ComputeIotaMaxSpendable(balance, n, "optIn") <= ComputeIotaMaxSpendable(balance, n, mode)
    ensures ComputeIotaMaxSpendable(balance, n', mode) <= ComputeIotaMaxSpendable(balance, n, mode)
  {
  }

  /** `isAmountValid(recipient, amount)` with the recipient's balance given:
      an empty account must receive at least the minimum balance. */
  function IsAmountValid(recipientBalance: nat, amount: int): (r: bool)
    ensures r <==> recipientBalance != 0 || amount >= IOTA_MIN_ACCOUNT_BALANCE
  {
    if recipientBalance == 0 then amount >= IOTA_MIN_ACCOUNT_BALANCE else true
  }
}

/** `js-transaction.ts`: the transaction the send flow starts from and
    edits. */
module JsTransaction {
  import opened Wrappers
  import opened WalletTypes

  /** `createTransaction(account)`. */
  function CreateTransaction(account: Account): (t: Transaction)
    ensures t.family == "iota" && t.amount == 0 && t.recipient == "" && !t.useAllAmount
  {
    Transaction("iota", 0, "", false)
  }

  /** A `Partial<Transaction>`: the properties the patch carries. */
  datatype Patch = Patch(
    family: Option<string>,
    amount: Option<nat>,
    recipient: Option<string>,
    useAllAmount: Option<bool>)

  const EmptyPatch := Patch(None, None, None, None)

  function Pick<T>(patched: Option<T>, current: T): T
  {
    if patched.Some? then patched.value else current
  }

  /** `updateTransaction(transaction, patch)`: `{...transaction, ...patch}`. */
  function UpdateTransaction(transaction: Transaction, patch: Patch): (r: Transaction)
    ensures patch.family.Some? ==> r.family == patch.family.value
    ensures patch.family.None? ==> r.family == transaction.family
    ensures patch.amount.Some? ==> r.amount == patch.amount.value
    ensures patch.amount.None? ==> r.amount == transaction.amount
    ensures patch.recipient.Some? ==> r.recipient == patch.recipient.value
    ensures patch.recipient.None? ==> r.recipient == transaction.recipient
    ensures patch.useAllAmount.Some? ==> r.useAllAmount == patch.useAllAmount.value
    ensures patch.useAllAmount.None? ==> r.useAllAmount == transaction.useAllAmount
  {
    Transaction(
      Pick(patch.family, transaction.family),
      Pick(patch.amount, transaction.amount),
      Pick(patch.recipient, transaction.recipient),
      Pick(patch.useAllAmount, transaction.useAllAmount))
  }

  /** Applying the same patch twice is applying it once, and the empty
      patch changes nothing. */
  lemma UpdateIdempotent(transaction: Transaction, patch: Patch)
    ensures UpdateTransaction(UpdateTransaction(transaction, patch), patch) == UpdateTransaction(transaction, patch)
    ensures UpdateTransaction(transaction, EmptyPatch) == transaction
  {
  }

  /** `prepareTransaction(account, transaction)` throws the JSON text of the
      transaction before anything else happens. `json` stands for
      `JSON.stringify`. */
  function PrepareTransaction(account: Account, transaction: Transaction, json: Transaction -> string): (r: Result<Transaction>)
    ensures r.Err? && r.error == Thrown(json(transaction))
  {
    Err(Thrown(json(transaction)))
  }
}
