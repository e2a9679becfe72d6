/** The Ledger Live records the IOTA family reads and builds: the account,
    the transaction being edited, the operation shown in the history, and
    the part of BigNumber the family relies on. Amounts are integers in the
    smallest unit. */
module WalletTypes {
  import opened Wrappers
  import opened Text

  /** The account fields the family reads. */
  datatype Account = Account(
    id: string,
    freshAddress: string,
    currencyId: string,
    balance: nat,
    spendableBalance: nat)

  /** A transaction of family "iota" (`TransactionCommon` & `family`). */
  datatype Transaction = Transaction(family: string, amount: nat, recipient: string, useAllAmount: bool)

  /** A value kept in an operation's `extra` record. */
  datatype ExtraValue =
    | StrValue(s: string)
    | NumValue(n: int)
    | BigValue(b: BigNumber)
    | NullValue

  /** An entry of the account's operation history. `date` is in
      milliseconds since the epoch; `None` is JavaScript's `null`. */
  datatype Operation = Operation(
    id: string,
    hash: string,
    opType: string,
    value: nat,
    fee: nat,
    blockHash: Option<string>,
    blockHeight: Option<int>,
    senders: seq<string>,
    recipients: seq<string>,
    accountId: string,
    date: int,
    extra: map<string, ExtraValue>)

  /** A BigNumber holding an integer, or NaN. */
  datatype BigNumber = Finite(value: int) | NaN

  /** `new BigNumber(s)` for a string: an integer in decimal notation, or
      NaN. */
  function BigFromString(s: string): (r: BigNumber)
    ensures r.Finite? <==> ParseInteger(s).Some?
    ensures IsCanonicalDecimal(s) ==> r.Finite? && IntToDecimal(r.value) == s
  {
    if IsCanonicalDecimal(s) then RenderParsed(s); BigOfParsed(s) else BigOfParsed(s)
  }

  function BigOfParsed(s: string): BigNumber
  {
    match ParseInteger(s)
    case Some(n) => Finite(n)
    case None => NaN
  }

  /** `b.toString()`. */
  function BigToString(b: BigNumber): (r: string)
    ensures b.Finite? ==> ParseInteger(r) == Some(b.value)
    ensures b.NaN? ==> ParseInteger(r).None?
  {
    if b.Finite? then ParseRendered(b.value); IntToDecimal(b.value) else "NaN"
  }

  /** Writing a BigNumber out and reading it back gives it back. */
  lemma BigStringRoundTrip(b: BigNumber)
    ensures BigFromString(BigToString(b)) == b
  {
    if b.Finite? { ParseRendered(b.value); }
  }

  /** JavaScript truthiness of an `extra` value; a BigNumber is an object,
      so it is truthy even when it holds 0. */
  predicate Truthy(v: ExtraValue)
  {
    match v
    case StrValue(s) => s != ""
    case NumValue(n) => n != 0
    case BigValue(_) => true
    case NullValue => false
  }
}
