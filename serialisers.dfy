/** `tokens.ts`: token ids of the form "iota/asa/<id>". */
module Tokens {
  import opened Wrappers
  import opened Text

  /** "iota/asa/". */
  const TOKEN_PREFIX := "iota" + "/" + "asa" + "/"

  /** `addPrefixToken(tokenId)`. */
  function AddPrefixToken(tokenId: string): (r: string)
    ensures |r| == |TOKEN_PREFIX| + |tokenId| && r[|TOKEN_PREFIX|..] == tokenId
    ensures r[..|TOKEN_PREFIX|] == "iota/asa/"
  {
    TOKEN_PREFIX + tokenId
  }

  /** `extractTokenId(tokenId)`: the third piece of the id split on "/";
      `None` is `undefined`, when there are fewer than three pieces. */
  function ExtractTokenId(tokenId: string): (r: Option<string>)
    ensures r.Some? <==> |Split(tokenId, '/')| >= 3
    ensures r.Some? ==> r.value == Split(tokenId, '/')[2]
  {
    var pieces := Split(tokenId, '/');
    if |pieces| >= 3 then Some(pieces[2]) else None
  }

  /** The first piece of a split: the longest prefix free of `sep`. */
  lemma {:induction false} SplitHead(s: string, sep: char)
    ensures var h := Split(s, sep)[0];
      && |h| <= |s| && h == s[..|h|] && sep !in h
      && (|h| < |s| ==> s[|h|] == sep)
    decreases |s|
  {
    if |s| > 0 && s[0] != sep {
      SplitHead(s[1..], sep);
    }
  }

  /** Splitting a separator-free word followed by the separator. */
  lemma {:induction false} SplitAfterWord(w: string, sep: char, rest: string)
    requires sep !in w
    ensures Split(w + [sep] + rest, sep) == [w] + Split(rest, sep)
    decreases |w|
  {
    if |w| == 0 {
      assert w + [sep] + rest == [sep] + rest;
      assert ([sep] + rest)[1..] == rest;
    } else {
      var s := w + [sep] + rest;
      assert s[0] == w[0] && s[1..] == w[1..] + [sep] + rest;
      SplitAfterWord(w[1..], sep, rest);
      assert [w[0]] + w[1..] == w;
    }
  }

  /** Two separator-free words, each followed by the separator. */
  lemma SplitAfterWords(a: string, b: string, sep: char, rest: string)
    requires sep !in a && sep !in b
    ensures Split(a + [sep] + b + [sep] + rest, sep) == [a, b] + Split(rest, sep)
  {
    var tail := b + [sep] + rest;
    var pieces := Split(rest, sep);
    assert Split(tail, sep) == [b] + pieces by {
      SplitAfterWord(b, sep, rest);
    }
    assert a + [sep] + b + [sep] + rest == a + [sep] + tail;
    assert Split(a + [sep] + tail, sep) == [a] + ([b] + pieces) by {
      SplitAfterWord(a, sep, tail);
    }
    assert [a] + ([b] + pieces) == [a, b] + pieces;
  }

  /** The token id of "<a>/<b>/<t>" for separator-free `a` and `b`. */
  lemma ExtractAfterWords(a: string, b: string, tokenId: string)
    requires '/' !in a && '/' !in b
    ensures ExtractTokenId(a + "/" + b + "/" + tokenId) == Some(Split(tokenId, '/')[0])
  {
    SplitAfterWords(a, b, '/', tokenId);
  }

  /** `extractTokenId(addPrefixToken(t))` is the part of `t` before its
      first "/", which is all of `t` when `t` has none. */
  lemma ExtractPrefixed(tokenId: string)
    ensures ExtractTokenId(AddPrefixToken(tokenId)) == Some(Split(tokenId, '/')[0])
    ensures '/' !in tokenId ==> ExtractTokenId(AddPrefixToken(tokenId)) == Some(tokenId)
  {
    ExtractAfterWords("iota", "asa", tokenId);
    if '/' !in tokenId {
      SplitNoSeparator(tokenId, '/');
    }
  }

  /** An id with a single "/" has no token id; one with three keeps only
      what lies between the second and the third. */
  lemma ExtractShort()
    ensures ExtractTokenId("iota/asa") == None
    ensures ExtractTokenId("iota/asa/7/x") == Some("7")
  {
    var iota, asa, seven, x := "iota", "asa", "7", "x";
    assert '/' !in iota && '/' !in asa && '/' !in seven && '/' !in x;
    SplitAfterWord(iota, '/', asa);
    assert Split(asa, '/') == [asa] by { SplitNoSeparator(asa, '/'); }
    assert "iota/asa" == iota + ['/'] + asa;
    SplitAfterWords(iota, asa, '/', seven + ['/'] + x);
    assert "iota/asa/7/x" == iota + ['/'] + asa + ['/'] + (seven + ['/'] + x);
    SplitAfterWord(seven, '/', x);
  }

  /** A string without the separator splits into itself. */
  lemma {:induction false} SplitNoSeparator(s: string, sep: char)
    requires sep !in s
    ensures Split(s, sep) == [s]
    decreases |s|
  {
    if |s| > 0 {
      SplitNoSeparator(s[1..], sep);
      assert [s[0]] + s[1..] == s;
    }
  }
}

/** `account.ts`: the `rewards` entry of an operation's `extra` record,
    stored as text and used as a BigNumber. */
module AccountExtra {
  import opened Wrappers
  import opened Text
  import opened WalletTypes

  /** `extra` is present and its `rewards` entry is truthy. */
  predicate HasRewards(extra: Option<map<string, ExtraValue>>)
  {
    extra.Some? && "rewards" in extra.value && Truthy(extra.value["rewards"])
  }

  /** `new BigNumber(v)`. */
  function ToBigNumber(v: ExtraValue): BigNumber
  {
    match v
    case StrValue(s) => BigFromString(s)
    case NumValue(n) => Finite(n)
    case BigValue(b) => b
    case NullValue => NaN
  }

  /** `v.toString()`. */
  function ToText(v: ExtraValue): string
  {
    match v
    case StrValue(s) => s
    case NumValue(n) => IntToDecimal(n)
    case BigValue(b) => BigToString(b)
    case NullValue => "null"
  }

  /** `fromOperationExtraRaw(extra)`. */
  function FromOperationExtraRaw(extra: Option<map<string, ExtraValue>>): (r: Option<map<string, ExtraValue>>)
    ensures !HasRewards(extra) ==> r == extra
    ensures HasRewards(extra) ==>
      && r.Some? && r.value.Keys == extra.value.Keys
      && r.value["rewards"] == BigValue(ToBigNumber(extra.value["rewards"]))
      && (forall key :: key in extra.value && key != "rewards" ==> r.value[key] == extra.value[key])
  {
    if HasRewards(extra)
    then Some(extra.value["rewards" := BigValue(ToBigNumber(extra.value["rewards"]))])
    else extra
  }

  /** `toOperationExtraRaw(extra)`. */
  function ToOperationExtraRaw(extra: Option<map<string, ExtraValue>>): (r: Option<map<string, ExtraValue>>)
    ensures !HasRewards(extra) ==> r == extra
    ensures HasRewards(extra) ==>
      && r.Some? && r.value.Keys == extra.value.Keys
      && r.value["rewards"] == StrValue(ToText(extra.value["rewards"]))
      && (forall key :: key in extra.value && key != "rewards" ==> r.value[key] == extra.value[key])
  {
    if HasRewards(extra)
    then Some(extra.value["rewards" := StrValue(ToText(extra.value["rewards"]))])
    else extra
  }

  /** Stored and restored, an operation's integer rewards come back as
      they were, and so does an `extra` without rewards. */
  lemma ExtraRoundTrip(extra: Option<map<string, ExtraValue>>)
    requires HasRewards(extra) ==> extra.value["rewards"].BigValue? && extra.value["rewards"].b.Finite?
    ensures FromOperationExtraRaw(ToOperationExtraRaw(extra)) == extra
  {
    if HasRewards(extra) {
      var m := extra.value;
      var b := m["rewards"].b;
      ParseRendered(b.value);
      var raw := ToOperationExtraRaw(extra);
      assert raw.value["rewards"] == StrValue(IntToDecimal(b.value));
      assert HasRewards(raw);
      assert FromOperationExtraRaw(raw).value == m;
    }
  }

  const REWARDS_LABEL := " REWARDS : "

  /** A value as a template literal writes it, `${v}`. */
  function TemplateText(v: ExtraValue): string
  {
    match v
    case StrValue(s) => s
    case NumValue(n) => IntToDecimal(n)
    case BigValue(b) => BigToString(b)
    case NullValue => "null"
  }

  /** `formatOperationSpecifics(op, unit)` with `op.extra` given; `hasUnit`
      says whether `unit` is truthy. Without rewards the text is empty;
      without a unit it is the label and the rewards as written; `None`
      stands for the text `formatCurrencyUnit` builds with a unit, which is
      not part of this model. */
  function FormatOperationSpecifics(extra: map<string, ExtraValue>, hasUnit: bool): (r: Option<string>)
    ensures r == Some("") <==> !HasRewards(Some(extra))
    ensures r.None? <==> HasRewards(Some(extra)) && hasUnit
    ensures HasRewards(Some(extra)) && !hasUnit ==>
      r.Some? && |r.value| >= |REWARDS_LABEL| && r.value[..|REWARDS_LABEL|] == REWARDS_LABEL
      && r.value[|REWARDS_LABEL|..] == TemplateText(extra["rewards"])
  {
    if !HasRewards(Some(extra)) then Some("")
    else if hasUnit then None
    else Some(REWARDS_LABEL + TemplateText(extra["rewards"]))
  }

  /** Without a unit, finite BigNumber rewards can be read back from the
      text after the label. */
  lemma RewardsTextReadsBack(extra: map<string, ExtraValue>, v: int)
    requires "rewards" in extra && extra["rewards"] == BigValue(Finite(v))
    ensures var r := FormatOperationSpecifics(extra, false);
      r.Some? && ParseInteger(r.value[|REWARDS_LABEL|..]) == Some(v)
  {
    assert HasRewards(Some(extra));
  }
}

/** `serialization.ts`: an IOTA account's resources as stored. */
module ResourcesSerialization {
  import opened Wrappers
  import opened Text
  import opened WalletTypes

  datatype IotaResources = IotaResources(rewards: BigNumber, nbAssets: int)
  datatype IotaResourcesRaw = IotaResourcesRaw(rewards: string, nbAssets: int)

  /** `toIotaResourcesRaw(r)`. */
  function ToIotaResourcesRaw(r: IotaResources): (raw: IotaResourcesRaw)
    ensures raw.nbAssets == r.nbAssets
    ensures r.rewards.Finite? ==> ParseInteger(raw.rewards) == Some(r.rewards.value)
  {
    IotaResourcesRaw(BigToString(r.rewards), r.nbAssets)
  }

  /** `fromIotaResourcesRaw(raw)`. */
  function FromIotaResourcesRaw(raw: IotaResourcesRaw): (r: IotaResources)
    ensures r.nbAssets == raw.nbAssets
    ensures r.rewards.Finite? <==> ParseInteger(raw.rewards).Some?
    ensures r.rewards.Finite? ==> r.rewards.value == ParseInteger(raw.rewards).value
  {
    IotaResources(BigFromString(raw.rewards), raw.nbAssets)
  }

  /** Storing then loading gives the resources back. */
  lemma ResourcesRoundTrip(r: IotaResources)
    ensures FromIotaResourcesRaw(ToIotaResourcesRaw(r)) == r
  {
    BigStringRoundTrip(r.rewards);
  }

  /** Loading then storing gives a canonical stored form back. */
  lemma RawRoundTrip(raw: IotaResourcesRaw)
    requires IsCanonicalDecimal(raw.rewards)
    ensures ToIotaResourcesRaw(FromIotaResourcesRaw(raw)) == raw
  {
  }
}
