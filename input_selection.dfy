/** `calculateInputs`: the greedy coin selector of the Stardust signer. The
    node and the indexer are not modelled; what they answer is given as a
    finite list of pages, one per pass of the outer `do … while` (each pass
    re-queries the same address, so the same outputs can come back). */
module InputSelection {
  import opened Wrappers
  import opened Text

  // Protocol constants of the iota.js library (Stardust).
  const BASIC_OUTPUT_TYPE := 3
  const ADDRESS_UNLOCK_CONDITION_TYPE := 0
  const ED25519_ADDRESS_TYPE := 0
  const UTXO_INPUT_TYPE := 0

  /** The default of the `zeroCount` parameter. */
  const DEFAULT_ZERO_COUNT := 5

  const NOT_ENOUGH_FUNDS := "There are not enough funds in the inputs for the required balance"

  datatype Address = Address(addressType: int, pubKeyHash: string)
  datatype UnlockCondition = UnlockCondition(conditionType: int, address: Address)
  datatype Output = Output(outputType: int, amount: nat, unlockConditions: seq<UnlockCondition>)

  /** One answer of `client.output(id)`: the output and its metadata. */
  datatype OutputRecord = OutputRecord(isSpent: bool, transactionId: string, outputIndex: int, output: Output)

  datatype UtxoInput = UtxoInput(inputType: int, transactionId: string, transactionOutputIndex: int)
  datatype SelectedInput = SelectedInput(input: UtxoInput, address: string, consumingOutput: Output)

  /** An entry of the `outputs` argument: `{address, amount}`. */
  datatype Payment = Payment(address: string, amount: nat)

  /** The result of `calculateInputs` together with the `outputs` array as
      the call leaves it. */
  datatype Selected = Selected(inputs: seq<SelectedInput>, outputs: seq<Payment>)

  // ---------------------------------------------------------------------
  // BigNumber comparisons as the source writes them

  /** `a >= b` on two BigNumbers: JavaScript compares their `valueOf()`
      strings, not their values. */
  predicate JsGe(a: nat, b: nat) { !LexLess(NatToDecimal(a), NatToDecimal(b)) }

  /** `a < b` on two BigNumbers, by the same string comparison. */
  predicate JsLt(a: nat, b: nat) { LexLess(NatToDecimal(a), NatToDecimal(b)) }

  /** When the two amounts have as many digits, string order is numeric. */
  lemma JsCompareSameLength(a: nat, b: nat)
    requires |NatToDecimal(a)| == |NatToDecimal(b)|
    ensures JsGe(a, b) <==> a >= b
    ensures JsLt(a, b) <==> a < b
  {
    SameLengthOrder(a, b);
  }

  /** With a different number of digits they part: "9" >= "10" and
      "10" < "9", although 9 < 10. */
  lemma JsCompareDiffers()
    ensures JsGe(9, 10) && 9 < 10
    ensures JsLt(10, 9) && 10 > 9
  {
    assert NatToDecimal(10) == NatToDecimal(1) + [DigitChar(0)];
    assert NatToDecimal(10) == "10";
    assert NatToDecimal(9) == "9";
  }

  // ---------------------------------------------------------------------
  // Sums

  /** The sum of the amounts of `outputs`. */
  function Sum(outputs: seq<Payment>): nat
  {
    if |outputs| == 0 then 0 else Sum(outputs[..|outputs| - 1]) + outputs[|outputs| - 1].amount
  }

  /** The sum of the amounts of the outputs the inputs consume. */
  function Consumed(inputs: seq<SelectedInput>): nat
  {
    if |inputs| == 0 then 0 else Consumed(inputs[..|inputs| - 1]) + inputs[|inputs| - 1].consumingOutput.amount
  }

  lemma ConsumedSnoc(inputs: seq<SelectedInput>, x: SelectedInput)
    ensures Consumed(inputs + [x]) == Consumed(inputs) + x.consumingOutput.amount
  {
    assert (inputs + [x])[..|inputs|] == inputs;
  }

  // ---------------------------------------------------------------------
  // Subsequences

  /** `xs` is `ys` with some elements left out, the rest in order. */
  predicate IsSubsequence<T(==)>(xs: seq<T>, ys: seq<T>)
    decreases |ys|
  {
    || |xs| == 0
    || (&& |ys| > 0
        && (|| (xs[|xs| - 1] == ys[|ys| - 1] && IsSubsequence(xs[..|xs| - 1], ys[..|ys| - 1]))
            || IsSubsequence(xs, ys[..|ys| - 1])))
  }

  lemma SubsequenceSnoc<T>(xs: seq<T>, ys: seq<T>, x: T)
    requires IsSubsequence(xs, ys)
    ensures IsSubsequence(xs + [x], ys + [x])
    ensures IsSubsequence(xs, ys + [x])
  {
    assert (xs + [x])[..|xs|] == xs;
    assert (ys + [x])[..|ys|] == ys;
  }

  lemma {:induction false} SubsequenceAppend<T>(xs: seq<T>, ys: seq<T>, zs: seq<T>)
    requires IsSubsequence(xs, ys)
    ensures IsSubsequence(xs, ys + zs)
    decreases |zs|
  {
    if |zs| == 0 {
      assert ys + zs == ys;
    } else {
      var front, last := zs[..|zs| - 1], zs[|zs| - 1];
      assert (ys + front) + [last] == ys + zs;
      SubsequenceAppend(xs, ys, front);
      SubsequenceSkip(xs, ys + front, last);
    }
  }

  /** A subsequence stays one when the sequence grows by an element. */
  lemma SubsequenceSkip<T>(xs: seq<T>, ys: seq<T>, x: T)
    requires IsSubsequence(xs, ys)
    ensures IsSubsequence(xs, ys + [x])
  {
    assert (ys + [x])[..|ys|] == ys;
  }

  /** A subsequence is no longer than the sequence and takes its elements
      from it. */
  lemma {:induction false} SubsequenceElements<T>(xs: seq<T>, ys: seq<T>)
    requires IsSubsequence(xs, ys)
    ensures |xs| <= |ys|
    ensures forall i :: 0 <= i < |xs| ==> xs[i] in ys
    decreases |ys|
  {
    if |xs| > 0 {
      var ys' := ys[..|ys| - 1];
      if xs[|xs| - 1] == ys[|ys| - 1] && IsSubsequence(xs[..|xs| - 1], ys') {
        SubsequenceElements(xs[..|xs| - 1], ys');
        forall i | 0 <= i < |xs|
          ensures xs[i] in ys
        {
          if i < |xs| - 1 { assert xs[..|xs| - 1][i] in ys'; }
        }
      } else {
        SubsequenceElements(xs, ys');
      }
    }
  }

  // ---------------------------------------------------------------------
  // One step of the selector

  /** What one query is about: the account's fresh address, the required
      balance and the `zeroCount` cut-off. */
  datatype Query = Query(address: string, required: nat, zeroCount: int)

  /** The local variables of `calculateInputs` that the loops update, with
      the remainders pushed onto `outputs`. */
  datatype Selection = Selection(consumed: nat, zeroBalance: int, finished: bool,
                                 inputs: seq<SelectedInput>, remainders: seq<Payment>)

  const Initial := Selection(0, 0, false, [], [])

  /** `unlockConditions.find(u => u.type === ADDRESS_UNLOCK_CONDITION_TYPE)`. */
  function FindAddressUnlock(conditions: seq<UnlockCondition>): (r: Option<UnlockCondition>)
    ensures r.Some? <==> exists i :: 0 <= i < |conditions| && conditions[i].conditionType == ADDRESS_UNLOCK_CONDITION_TYPE
    ensures r.Some? ==>
      && r.value.conditionType == ADDRESS_UNLOCK_CONDITION_TYPE
      && exists i :: 0 <= i < |conditions| && conditions[i] == r.value &&
           forall j :: 0 <= j < i ==> conditions[j].conditionType != ADDRESS_UNLOCK_CONDITION_TYPE
  {
    if |conditions| == 0 then None
    else if conditions[0].conditionType == ADDRESS_UNLOCK_CONDITION_TYPE then Some(conditions[0])
    else
      var rest := FindAddressUnlock(conditions[1..]);
      assert forall i :: 1 <= i < |conditions| ==> conditions[i] == conditions[1..][i - 1];
      rest
  }

  /** The address a remainder goes back to: that of the first address
      unlock condition of a basic output, when it is an Ed25519 address. */
  function RemainderAddress(output: Output): Option<string>
  {
    if output.outputType != BASIC_OUTPUT_TYPE then None
    else
      var unlock := FindAddressUnlock(output.unlockConditions);
      if unlock.Some? && unlock.value.address.addressType == ED25519_ADDRESS_TYPE
      then Some(unlock.value.address.pubKeyHash) else None
  }

  /** The remainder pushed onto `outputs` once the stop test holds. */
  function Remainder(output: Output, consumed: nat, required: nat): seq<Payment>
  {
    if consumed > required && RemainderAddress(output).Some?
    then [Payment(RemainderAddress(output).value, consumed - required)] else []
  }

  lemma RemainderShape(output: Output, consumed: nat, required: nat)
    ensures var r := Remainder(output, consumed, required);
      && |r| <= 1
      && (|r| == 1 ==>
            consumed > required && RemainderAddress(output).Some?
            && r[0] == Payment(RemainderAddress(output).value, consumed - required))
  {
  }

  function InputOf(address: string, record: OutputRecord): SelectedInput
  {
    SelectedInput(UtxoInput(UTXO_INPUT_TYPE, record.transactionId, record.outputIndex), address, record.output)
  }

  /** The body of the inner `for`: one output the indexer listed. */
  function Consider(q: Query, st: Selection, record: OutputRecord): Selection
  {
    if record.isSpent || st.consumed >= q.required then st
    else if record.output.amount == 0 then
      var zeros := st.zeroBalance + 1;
      st.(zeroBalance := zeros, finished := st.finished || zeros >= q.zeroCount)
    else
      var consumed := st.consumed + record.output.amount;
      var inputs := st.inputs + [InputOf(q.address, record)];
      if JsGe(consumed, q.required) then
        st.(consumed := consumed, inputs := inputs, finished := true,
            remainders := st.remainders + Remainder(record.output, consumed, q.required))
      else st.(consumed := consumed, inputs := inputs)
  }

  /** The inner `for` over one page, from its start to its end. */
  function ScanItems(q: Query, st: Selection, items: seq<OutputRecord>): Selection
  {
    if |items| == 0 then st else Consider(q, ScanItems(q, st, items[..|items| - 1]), items[|items| - 1])
  }

  /** `Consider` spelled out branch by branch, as the loop body computes it. */
  lemma ConsiderShape(q: Query, st: Selection, record: OutputRecord)
    ensures var next := Consider(q, st, record);
      if record.isSpent || st.consumed >= q.required then next == st
      else if record.output.amount == 0 then
        next == st.(zeroBalance := st.zeroBalance + 1, finished := st.finished || st.zeroBalance + 1 >= q.zeroCount)
      else
        var consumed := st.consumed + record.output.amount;
        && next.consumed == consumed && next.zeroBalance == st.zeroBalance
        && next.inputs == st.inputs + [InputOf(q.address, record)]
        && next.finished == (st.finished || JsGe(consumed, q.required))
        && next.remainders == st.remainders +
             (if JsGe(consumed, q.required) && consumed - q.required > 0 && record.output.outputType == BASIC_OUTPUT_TYPE
                 && FindAddressUnlock(record.output.unlockConditions).Some?
                 && FindAddressUnlock(record.output.unlockConditions).value.address.addressType == ED25519_ADDRESS_TYPE
              then [Payment(FindAddressUnlock(record.output.unlockConditions).value.address.pubKeyHash, consumed - q.required)]
              else [])
  {
  }

  /** The output that makes the stop test hold. */
  lemma ConsiderStops(q: Query, st: Selection, record: OutputRecord)
    requires !record.isSpent && st.consumed < q.required && record.output.amount > 0
    requires JsGe(st.consumed + record.output.amount, q.required)
    ensures var consumed := st.consumed + record.output.amount;
      Consider(q, st, record) ==
        st.(consumed := consumed, inputs := st.inputs + [InputOf(q.address, record)], finished := true,
            remainders := st.remainders + Remainder(record.output, consumed, q.required))
  {
  }

  /** An output that is taken without making the stop test hold. */
  lemma ConsiderContinues(q: Query, st: Selection, record: OutputRecord)
    requires !record.isSpent && st.consumed < q.required && record.output.amount > 0
    requires !JsGe(st.consumed + record.output.amount, q.required)
    ensures Consider(q, st, record) ==
      st.(consumed := st.consumed + record.output.amount, inputs := st.inputs + [InputOf(q.address, record)])
  {
  }

  lemma ScanStep(q: Query, st: Selection, items: seq<OutputRecord>, j: nat)
    requires j < |items|
    ensures ScanItems(q, st, items[..j + 1]) == Consider(q, ScanItems(q, st, items[..j]), items[j])
  {
    assert items[..j + 1][..j] == items[..j];
  }

  lemma ScanSingle(q: Query, st: Selection, record: OutputRecord)
    ensures QueryPage(q, st, [record]) == Consider(q, st, record)
  {
    assert [record][..0] == [];
    assert ScanItems(q, st, []) == st;
  }

  /** One pass of the `do … while`: an empty page counts as a zero balance. */
  function QueryPage(q: Query, st: Selection, page: seq<OutputRecord>): Selection
  {
    if |page| == 0 then
      var zeros := st.zeroBalance + 1;
      st.(zeroBalance := zeros, finished := st.finished || zeros >= q.zeroCount)
    else ScanItems(q, st, page)
  }

  /** The `do … while (!finished)` over the given pages; running out of
      pages stands for the source querying forever. */
  function Rounds(q: Query, st: Selection, pages: seq<seq<OutputRecord>>): Result<Selection>
    decreases |pages|
  {
    if |pages| == 0 then Err(OutOfPages)
    else
      var next := QueryPage(q, st, pages[0]);
      if next.finished then Ok(next) else Rounds(q, next, pages[1..])
  }

  /** `calculateInputs(account, client, outputs, zeroCount)`: the selected
      inputs and the `outputs` array as the call leaves it. */
  function CalculateInputsOutcome(address: string, pages: seq<seq<OutputRecord>>, outputs: seq<Payment>, zeroCount: int)
    : Result<Selected>
  {
    var q := Query(address, Sum(outputs), zeroCount);
    var run := Rounds(q, Initial, pages);
    if run.Err? then Err(run.error)
    else if JsLt(run.value.consumed, q.required) then Err(Thrown(NOT_ENOUGH_FUNDS))
    else Ok(Selected(run.value.inputs, outputs + run.value.remainders))
  }

  method CalculateInputs(address: string, pages: seq<seq<OutputRecord>>, outputs: seq<Payment>, zeroCount: int)
    returns (r: Result<Selected>)
    ensures r == CalculateInputsOutcome(address, pages, outputs, zeroCount)
  {
    var requiredBalance: nat := 0;
    for i := 0 to |outputs|
      invariant requiredBalance == Sum(outputs[..i])
    {
      assert outputs[..i + 1][..i] == outputs[..i];
      requiredBalance := requiredBalance + outputs[i].amount;
    }
    assert outputs[..|outputs|] == outputs;
    var q := Query(address, requiredBalance, zeroCount);
    var consumedBalance: nat := 0;
    var inputs: seq<SelectedInput> := [];
    var remainders: seq<Payment> := [];
    var finished := false;
    var zeroBalance := 0;
    var k := 0;
    while !finished
      invariant 0 <= k <= |pages|
      invariant var st := Selection(consumedBalance, zeroBalance, finished, inputs, remainders);
        if finished then Rounds(q, Initial, pages) == Ok(st)
        else Rounds(q, st, pages[k..]) == Rounds(q, Initial, pages)
      decreases |pages| - k
    {
      if k == |pages| {
        return Err(OutOfPages);
      }
      ghost var before := Selection(consumedBalance, zeroBalance, finished, inputs, remainders);
      var items := pages[k];
      if |items| == 0 {
        zeroBalance := zeroBalance + 1;
        if zeroBalance >= zeroCount {
          finished := true;
        }
      } else {
        var after := ScanPage(q, Selection(consumedBalance, zeroBalance, finished, inputs, remainders), items);
        consumedBalance, zeroBalance, finished, inputs, remainders :=
          after.consumed, after.zeroBalance, after.finished, after.inputs, after.remainders;
      }
      assert pages[k..][1..] == pages[k + 1..];
      k := k + 1;
    }
    if JsLt(consumedBalance, requiredBalance) {
      return Err(Thrown(NOT_ENOUGH_FUNDS));
    }
    return Ok(Selected(inputs, outputs + remainders));
  }

  /** The inner `for` of one pass: every output the indexer listed, in
      order. */
  method ScanPage(q: Query, st: Selection, items: seq<OutputRecord>) returns (next: Selection)
    ensures next == ScanItems(q, st, items)
  {
    next := st;
    for j := 0 to |items|
      invariant next == ScanItems(q, st, items[..j])
    {
      next := ConsiderOutput(q, next, items[j]);
      ScanStep(q, st, items, j);
    }
    assert items[..|items|] == items;
  }

  /** The body of the inner `for`, on the loop's variables. */
  method ConsiderOutput(q: Query, st: Selection, record: OutputRecord) returns (next: Selection)
    ensures next == Consider(q, st, record)
  {
    var consumedBalance: nat, zeroBalance, finished, inputs, remainders :=
      st.consumed, st.zeroBalance, st.finished, st.inputs, st.remainders;
    if !record.isSpent && consumedBalance < q.required {
      if record.output.amount == 0 {
        zeroBalance := zeroBalance + 1;
        if zeroBalance >= q.zeroCount {
          finished := true;
        }
      } else {
        consumedBalance := consumedBalance + record.output.amount;
        var input := UtxoInput(UTXO_INPUT_TYPE, record.transactionId, record.outputIndex);
        inputs := inputs + [SelectedInput(input, q.address, record.output)];
        if JsGe(consumedBalance, q.required) {
          if consumedBalance - q.required > 0 && record.output.outputType == BASIC_OUTPUT_TYPE {
            var unlock := FindAddressUnlock(record.output.unlockConditions);
            if unlock.Some? && unlock.value.address.addressType == ED25519_ADDRESS_TYPE {
              remainders := remainders + [Payment(unlock.value.address.pubKeyHash, consumedBalance - q.required)];
            }
          }
          finished := true;
        }
      }
    }
    ConsiderShape(q, st, record);
    next := Selection(consumedBalance, zeroBalance, finished, inputs, remainders);
  }

  // ---------------------------------------------------------------------
  // What the selector keeps

  /** The unspent, non-zero outputs among `seen`, as inputs. */
  function Candidates(address: string, seen: seq<OutputRecord>): seq<SelectedInput>
  {
    if |seen| == 0 then []
    else
      var last := seen[|seen| - 1];
      Candidates(address, seen[..|seen| - 1])
        + (if !last.isSpent && last.output.amount > 0 then [InputOf(address, last)] else [])
  }

  lemma CandidatesSnoc(address: string, seen: seq<OutputRecord>, r: OutputRecord)
    ensures Candidates(address, seen + [r]) ==
      Candidates(address, seen) + (if !r.isSpent && r.output.amount > 0 then [InputOf(address, r)] else [])
  {
    assert (seen + [r])[..|seen|] == seen;
  }

  /** The facts that hold of the selector's variables after it has looked
      at the outputs `seen`. */
  predicate Invariant(q: Query, st: Selection, seen: seq<OutputRecord>)
  {
    && st.consumed == Consumed(st.inputs)
    && (forall i :: 0 <= i < |st.inputs| ==>
          st.inputs[i].address == q.address && st.inputs[i].consumingOutput.amount > 0
          && st.inputs[i].input.inputType == UTXO_INPUT_TYPE)
    && (|st.inputs| > 0 ==> Consumed(st.inputs[..|st.inputs| - 1]) < q.required)
    && IsSubsequence(st.inputs, Candidates(q.address, seen))
    && (st.zeroBalance > 0 && st.zeroBalance >= q.zeroCount ==> st.finished)
    && st.zeroBalance >= 0
    && |st.remainders| <= 1
    && (|st.remainders| == 1 ==>
          && st.finished && |st.inputs| > 0 && st.consumed > q.required && JsGe(st.consumed, q.required)
          && RemainderAddress(st.inputs[|st.inputs| - 1].consumingOutput).Some?
          && st.remainders[0] == Payment(RemainderAddress(st.inputs[|st.inputs| - 1].consumingOutput).value,
                                         st.consumed - q.required))
  }

  lemma ConsiderKeeps(q: Query, st: Selection, record: OutputRecord, seen: seq<OutputRecord>)
    requires Invariant(q, st, seen)
    ensures Invariant(q, Consider(q, st, record), seen + [record])
    ensures st.finished ==> Consider(q, st, record).finished
  {
    CandidatesSnoc(q.address, seen, record);
    var c := Candidates(q.address, seen);
    SubsequenceSnoc(st.inputs, c, InputOf(q.address, record));
    if record.isSpent || record.output.amount <= 0 {
      assert Candidates(q.address, seen + [record]) == c;
      ConsiderSkips(q, st, record, seen);
    } else if st.consumed >= q.required {
      assert Candidates(q.address, seen + [record]) == c + [InputOf(q.address, record)];
      ConsiderSkips(q, st, record, seen);
    } else {
      ConsiderTakes(q, st, record, seen);
    }
  }

  /** An output that is spent, not needed or empty leaves the inputs, the
      consumed balance and the remainders alone. */
  lemma ConsiderSkips(q: Query, st: Selection, record: OutputRecord, seen: seq<OutputRecord>)
    requires Invariant(q, st, seen)
    requires record.isSpent || st.consumed >= q.required || record.output.amount == 0
    requires IsSubsequence(st.inputs, Candidates(q.address, seen + [record]))
    ensures Invariant(q, Consider(q, st, record), seen + [record])
    ensures st.finished ==> Consider(q, st, record).finished
  {
  }

  /** A selected output extends the inputs by one and adds its amount. */
  lemma ConsiderTakes(q: Query, st: Selection, record: OutputRecord, seen: seq<OutputRecord>)
    requires Invariant(q, st, seen)
    requires !record.isSpent && st.consumed < q.required && record.output.amount > 0
    requires IsSubsequence(st.inputs + [InputOf(q.address, record)], Candidates(q.address, seen + [record]))
    ensures Invariant(q, Consider(q, st, record), seen + [record])
    ensures st.finished ==> Consider(q, st, record).finished
  {
    var x := InputOf(q.address, record);
    var consumed := st.consumed + record.output.amount;
    var stop := JsGe(consumed, q.required);
    assert st.remainders == [];
    var next := Selection(consumed, st.zeroBalance, st.finished || stop, st.inputs + [x],
                          if stop then Remainder(x.consumingOutput, consumed, q.required) else []);
    TakeKeeps(q, st, x, seen + [record], stop);
    assert Consider(q, st, record) == next by {
      if stop {
        ConsiderStops(q, st, record);
      } else {
        ConsiderContinues(q, st, record);
      }
    }
  }

  /** The facts once input `x` is taken; `stop` says whether the stop test
      held, and the remainder is then the one of `x`'s output. */
  lemma TakeKeeps(q: Query, st: Selection, x: SelectedInput, seen: seq<OutputRecord>, stop: bool)
    requires st.consumed == Consumed(st.inputs) && st.consumed < q.required && st.remainders == []
    requires forall i :: 0 <= i < |st.inputs| ==>
      st.inputs[i].address == q.address && st.inputs[i].consumingOutput.amount > 0
      && st.inputs[i].input.inputType == UTXO_INPUT_TYPE
    requires x.address == q.address && x.consumingOutput.amount > 0 && x.input.inputType == UTXO_INPUT_TYPE
    requires IsSubsequence(st.inputs + [x], Candidates(q.address, seen))
    requires st.zeroBalance > 0 && st.zeroBalance >= q.zeroCount ==> st.finished
    requires st.zeroBalance >= 0
    requires stop ==> JsGe(st.consumed + x.consumingOutput.amount, q.required)
    ensures var consumed := st.consumed + x.consumingOutput.amount;
      Invariant(q, Selection(consumed, st.zeroBalance, st.finished || stop, st.inputs + [x],
                             if stop then Remainder(x.consumingOutput, consumed, q.required) else []), seen)
  {
    var inputs := st.inputs + [x];
    var consumed := st.consumed + x.consumingOutput.amount;
    ConsumedSnoc(st.inputs, x);
    InputsExtend(q, st.inputs, x);
    assert inputs[..|inputs| - 1] == st.inputs;
    TakeRemainder(q, inputs, x, consumed, stop);
  }

  /** Every input spends a non-zero UTXO of the address: still so with `x`. */
  lemma InputsExtend(q: Query, inputs: seq<SelectedInput>, x: SelectedInput)
    requires forall i :: 0 <= i < |inputs| ==>
      inputs[i].address == q.address && inputs[i].consumingOutput.amount > 0
      && inputs[i].input.inputType == UTXO_INPUT_TYPE
    requires x.address == q.address && x.consumingOutput.amount > 0 && x.input.inputType == UTXO_INPUT_TYPE
    ensures var next := inputs + [x];
      forall i :: 0 <= i < |next| ==>
        next[i].address == q.address && next[i].consumingOutput.amount > 0
        && next[i].input.inputType == UTXO_INPUT_TYPE
  {
    var next := inputs + [x];
    forall i | 0 <= i < |next|
      ensures next[i].address == q.address && next[i].consumingOutput.amount > 0
        && next[i].input.inputType == UTXO_INPUT_TYPE
    {
      if i < |inputs| {
        assert next[i] == inputs[i];
      }
    }
  }

  /** The remainder pushed when `x` is taken is the one of the last input. */
  lemma TakeRemainder(q: Query, inputs: seq<SelectedInput>, x: SelectedInput, consumed: nat, stop: bool)
    requires |inputs| > 0 && inputs[|inputs| - 1] == x
    requires stop ==> JsGe(consumed, q.required)
    ensures var rem := if stop then Remainder(x.consumingOutput, consumed, q.required) else [];
      && |rem| <= 1
      && (|rem| == 1 ==>
            && stop && consumed > q.required && JsGe(consumed, q.required)
            && RemainderAddress(inputs[|inputs| - 1].consumingOutput).Some?
            && rem[0] == Payment(RemainderAddress(inputs[|inputs| - 1].consumingOutput).value, consumed - q.required))
  {
    RemainderShape(x.consumingOutput, consumed, q.required);
  }

  lemma {:induction false} ScanKeeps(q: Query, st: Selection, items: seq<OutputRecord>, seen: seq<OutputRecord>)
    requires Invariant(q, st, seen)
    ensures Invariant(q, ScanItems(q, st, items), seen + items)
    ensures st.finished ==> ScanItems(q, st, items).finished
    decreases |items|
  {
    if |items| > 0 {
      var front := items[..|items| - 1];
      ScanKeeps(q, st, front, seen);
      ConsiderKeeps(q, ScanItems(q, st, front), items[|items| - 1], seen + front);
      assert seen + front + [items[|items| - 1]] == seen + items;
    } else {
      assert seen + items == seen;
    }
  }

  /** The outputs of `pages` one after another. */
  function Flatten(pages: seq<seq<OutputRecord>>): seq<OutputRecord>
  {
    if |pages| == 0 then [] else pages[0] + Flatten(pages[1..])
  }

  lemma QueryKeeps(q: Query, st: Selection, page: seq<OutputRecord>, seen: seq<OutputRecord>)
    requires Invariant(q, st, seen)
    ensures Invariant(q, QueryPage(q, st, page), seen + page)
  {
    if |page| == 0 {
      assert seen + page == seen;
    } else {
      ScanKeeps(q, st, page, seen);
    }
  }

  /** Looking at more outputs keeps the facts true. */
  lemma InvariantExtends(q: Query, st: Selection, seen: seq<OutputRecord>, more: seq<OutputRecord>)
    requires Invariant(q, st, seen)
    ensures Invariant(q, st, seen + more)
  {
    CandidatesPrefix(q.address, seen, more);
    var c := Candidates(q.address, seen);
    var all := Candidates(q.address, seen + more);
    SubsequenceAppend(st.inputs, c, all[|c|..]);
  }

  lemma {:induction false} RoundsKeep(q: Query, st: Selection, pages: seq<seq<OutputRecord>>, seen: seq<OutputRecord>)
    requires Invariant(q, st, seen)
    ensures Rounds(q, st, pages).Ok? ==>
      Invariant(q, Rounds(q, st, pages).value, seen + Flatten(pages)) && Rounds(q, st, pages).value.finished
    ensures Rounds(q, st, pages).Err? ==> Rounds(q, st, pages) == Err(OutOfPages)
    decreases |pages|
  {
    if |pages| > 0 {
      var next := QueryPage(q, st, pages[0]);
      QueryKeeps(q, st, pages[0], seen);
      assert seen + pages[0] + Flatten(pages[1..]) == seen + Flatten(pages);
      if next.finished {
        InvariantExtends(q, next, seen + pages[0], Flatten(pages[1..]));
      } else {
        RoundsKeep(q, next, pages[1..], seen + pages[0]);
      }
    }
  }

  lemma {:induction false} CandidatesPrefix(address: string, seen: seq<OutputRecord>, more: seq<OutputRecord>)
    ensures |Candidates(address, seen)| <= |Candidates(address, seen + more)|
    ensures Candidates(address, seen + more) ==
      Candidates(address, seen) + Candidates(address, seen + more)[|Candidates(address, seen)|..]
    decreases |more|
  {
    if |more| == 0 {
      assert seen + more == seen;
    } else {
      var front := more[..|more| - 1];
      CandidatesPrefix(address, seen, front);
      CandidatesSnoc(address, seen + front, more[|more| - 1]);
      assert seen + front + [more[|more| - 1]] == seen + more;
    }
  }

  /** What `calculateInputs` promises on success, for every list of indexer
      answers: every input spends an unspent, non-zero output of the
      account's address, the inputs keep the indexer's order, each was
      taken while the balance consumed so far was still short of the sum
      of `outputs`, the string-compared stop test held, and `outputs` gains
      at most one entry: the surplus, paid back to the Ed25519 address of
      the last input's output. */
  lemma SelectionProperties(address: string, pages: seq<seq<OutputRecord>>, outputs: seq<Payment>, zeroCount: int)
    ensures var r := CalculateInputsOutcome(address, pages, outputs, zeroCount);
      r.Ok? ==>
        var inputs := r.value.inputs;
        && (forall i :: 0 <= i < |inputs| ==>
              inputs[i].address == address && inputs[i].consumingOutput.amount > 0
              && inputs[i].input.inputType == UTXO_INPUT_TYPE)
        && IsSubsequence(inputs, Candidates(address, Flatten(pages)))
        && (|inputs| > 0 ==> Consumed(inputs[..|inputs| - 1]) < Sum(outputs))
        && !JsLt(Consumed(inputs), Sum(outputs))
        && r.value.outputs[..|outputs|] == outputs
        && |outputs| <= |r.value.outputs| <= |outputs| + 1
        && (|r.value.outputs| > |outputs| ==>
              && |inputs| > 0 && Consumed(inputs) > Sum(outputs)
              && RemainderAddress(inputs[|inputs| - 1].consumingOutput).Some?
              && r.value.outputs[|outputs|] ==
                   Payment(RemainderAddress(inputs[|inputs| - 1].consumingOutput).value, Consumed(inputs) - Sum(outputs)))
  {
    var q := Query(address, Sum(outputs), zeroCount);
    assert Candidates(address, []) == [];
    assert [] + Flatten(pages) == Flatten(pages);
    RoundsKeep(q, Initial, pages, []);
  }

  /** The selector fails for want of funds exactly when it stopped and the
      string comparison says the consumed balance is below the required
      one; a remainder is never pushed on that path. */
  lemma InsufficientFunds(address: string, pages: seq<seq<OutputRecord>>, outputs: seq<Payment>, zeroCount: int)
    ensures var q := Query(address, Sum(outputs), zeroCount);
      var run := Rounds(q, Initial, pages);
      (CalculateInputsOutcome(address, pages, outputs, zeroCount) == Err(Thrown(NOT_ENOUGH_FUNDS)) <==>
         run.Ok? && JsLt(run.value.consumed, Sum(outputs)))
      && (run.Ok? && JsLt(run.value.consumed, Sum(outputs)) ==> run.value.remainders == [])
  {
    var q := Query(address, Sum(outputs), zeroCount);
    assert Candidates(address, []) == [];
    RoundsKeep(q, Initial, pages, []);
  }

  /** Outputs are not de-duplicated: a second pass over the same page
      selects the same output again. */
  lemma SamePageSelectedTwice(address: string, record: OutputRecord)
    requires !record.isSpent && record.output.amount == 10
    ensures var r := CalculateInputsOutcome(address, [[record], [record]], [Payment("recipient", 20)], DEFAULT_ZERO_COUNT);
      r.Ok? && r.value.inputs == [InputOf(address, record), InputOf(address, record)]
  {
    var q := Query(address, 20, DEFAULT_ZERO_COUNT);
    assert Sum([Payment("recipient", 20)]) == 20 by {
      assert [Payment("recipient", 20)][..0] == [];
    }
    assert NatToDecimal(10) == NatToDecimal(1) + [DigitChar(0)];
    assert NatToDecimal(20) == NatToDecimal(2) + [DigitChar(0)];
    assert !JsGe(10, 20) && JsGe(20, 20);
    var x := InputOf(address, record);
    ScanSingle(q, Initial, record);
    ConsiderContinues(q, Initial, record);
    var first := Consider(q, Initial, record);
    assert first == Selection(10, 0, false, [x], []);
    ScanSingle(q, first, record);
    ConsiderStops(q, first, record);
    var second := Consider(q, first, record);
    assert second.inputs == [x, x] && second.finished;
    assert Rounds(q, first, [[record]]) == Ok(second);
    assert [[record], [record]][1..] == [[record]];
    assert Rounds(q, Initial, [[record], [record]]) == Rounds(q, first, [[record]]);
    assert !JsLt(second.consumed, 20);
  }

  /** "9" >= "10": with 10 required and an output of 9, the selector stops
      and returns the short input without throwing. */
  lemma ShortfallAccepted(address: string, record: OutputRecord)
    requires !record.isSpent && record.output.amount == 9
    ensures var r := CalculateInputsOutcome(address, [[record]], [Payment("recipient", 10)], DEFAULT_ZERO_COUNT);
      r.Ok? && r.value.inputs == [InputOf(address, record)] && Consumed(r.value.inputs) < 10
  {
    JsCompareDiffers();
    var outputs := [Payment("recipient", 10)];
    assert Sum(outputs) == 10 by {
      assert outputs[..0] == [];
    }
    FirstOutputStops(address, record, outputs, DEFAULT_ZERO_COUNT);
    assert Remainder(record.output, 9, 10) == [];
    var x := InputOf(address, record);
    ConsumedSnoc([], x);
    assert [] + [x] == [x];
  }

  /** A single answer whose one output the string test says is enough:
      that output is the only input, with its remainder, if any. */
  lemma FirstOutputStops(address: string, record: OutputRecord, outputs: seq<Payment>, zeroCount: int)
    requires !record.isSpent && record.output.amount > 0 && Sum(outputs) > 0
    requires JsGe(record.output.amount, Sum(outputs))
    ensures CalculateInputsOutcome(address, [[record]], outputs, zeroCount) ==
      Ok(Selected([InputOf(address, record)], outputs + Remainder(record.output, record.output.amount, Sum(outputs))))
  {
    var q := Query(address, Sum(outputs), zeroCount);
    ScanSingle(q, Initial, record);
    ConsiderStops(q, Initial, record);
    var first := Consider(q, Initial, record);
    assert first.inputs == [InputOf(address, record)] && first.finished;
    assert first.remainders == Remainder(record.output, record.output.amount, Sum(outputs));
    assert Rounds(q, Initial, [[record]]) == Ok(first);
  }

  /** "10" < "9": with 9 required and an output of 10, the stop test never
      holds, and the source would query the same address forever. */
  lemma SurplusNeverStops(address: string, record: OutputRecord, n: nat)
    requires !record.isSpent && record.output.amount == 10
    ensures CalculateInputsOutcome(address, seq(n, _ => [record]), [Payment("recipient", 9)], DEFAULT_ZERO_COUNT)
      == Err(OutOfPages)
  {
    JsCompareDiffers();
    var q := Query(address, 9, DEFAULT_ZERO_COUNT);
    assert Sum([Payment("recipient", 9)]) == 9 by {
      assert [Payment("recipient", 9)][..0] == [];
    }
    ScanSingle(q, Initial, record);
    ConsiderContinues(q, Initial, record);
    var st := Consider(q, Initial, record);
    assert !st.finished && st.consumed == 10;
    if n > 0 {
      ScanSingle(q, st, record);
      assert Consider(q, st, record) == st;
      SurplusRounds(q, st, record, n - 1);
      assert seq(n, _ => [record])[0] == [record];
      assert seq(n, _ => [record])[1..] == seq(n - 1, _ => [record]);
    }
  }

  lemma {:induction false} SurplusRounds(q: Query, st: Selection, record: OutputRecord, n: nat)
    requires !st.finished && QueryPage(q, st, [record]) == st
    ensures Rounds(q, st, seq(n, _ => [record])) == Err(OutOfPages)
    decreases n
  {
    if n > 0 {
      SurplusRounds(q, st, record, n - 1);
      assert seq(n, _ => [record])[0] == [record];
      assert seq(n, _ => [record])[1..] == seq(n - 1, _ => [record]);
    }
  }

  /** An address the indexer lists nothing for: after `zeroCount` empty
      pages the selector stops, and it throws exactly when something is
      required. */
  lemma EmptyAddress(address: string, outputs: seq<Payment>, zeroCount: nat, n: nat)
    requires 1 <= zeroCount <= n
    ensures CalculateInputsOutcome(address, seq<seq<OutputRecord>>(n, _ => []), outputs, zeroCount) ==
      if Sum(outputs) > 0 then Err(Thrown(NOT_ENOUGH_FUNDS)) else Ok(Selected([], outputs))
  {
    var q := Query(address, Sum(outputs), zeroCount);
    EmptyRounds(q, 0, n);
    assert Initial == Selection(0, 0, false, [], []);
    var final := Selection(0, zeroCount, true, [], []);
    assert Rounds(q, Initial, seq<seq<OutputRecord>>(n, _ => [])) == Ok(final);
    assert NatToDecimal(0) == "0";
    if Sum(outputs) > 0 {
      assert NatToDecimal(Sum(outputs))[0] != '0';
      assert IsDigit(NatToDecimal(Sum(outputs))[0]);
    }
    assert outputs + [] == outputs;
  }

  lemma {:induction false} EmptyRounds(q: Query, zeros: nat, n: nat)
    requires 1 <= q.zeroCount && zeros < q.zeroCount && zeros + n >= q.zeroCount
    ensures Rounds(q, Selection(0, zeros, false, [], []), seq<seq<OutputRecord>>(n, _ => [])) == Ok(Selection(0, q.zeroCount, true, [], []))
    decreases n
  {
    assert seq<seq<OutputRecord>>(n, _ => [])[0] == [];
    assert seq<seq<OutputRecord>>(n, _ => [])[1..] == seq<seq<OutputRecord>>(n - 1, _ => []);
    if zeros + 1 < q.zeroCount {
      EmptyRounds(q, zeros + 1, n - 1);
    }
  }
}
