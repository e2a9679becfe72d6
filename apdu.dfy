/** The APDU command codec shared by the IOTA and Shimmer device apps:
    the class byte, the instruction table, the two timeout classes, the
    command frame, and the fixed-layout payloads the `struct` package packs
    and unpacks (libs/ledger-live-common/src/families/shimmer/hw-app-shimmer/index.ts
    declares the table; hw-app-iota imports the same values from a
    constants file). */
module Apdu {
  import opened Wrappers
  import opened Bytes
  import opened Text

  const CLA := 0x7b

  const INS_NO_OPERATION := 0x00
  const INS_GET_APP_CONFIG := 0x10
  const INS_SET_ACCOUNT := 0x11
  const INS_GET_DATA_BUFFER_STATE := 0x80
  const INS_WRITE_DATA_BLOCK := 0x81
  const INS_READ_DATA_BLOCK := 0x82
  const INS_CLEAR_DATA_BUFFER := 0x83
  const INS_SHOW_FLOW := 0x90
  const INS_PREPARE_SIGNING := 0xa0
  const INS_GEN_ADDRESS := 0xa1
  const INS_USER_CONFIRM_ESSENCE := 0xa3
  const INS_SIGN_SINGLE := 0xa4
  const INS_RESET := 0xff

  /** Timeout (ms) for commands that need no user interaction. */
  const TIMEOUT_CMD_NON_USER_INTERACTION := 10000
  /** Timeout (ms) for commands that may wait for the user. */
  const TIMEOUT_CMD_USER_INTERACTION := 150000

  const ED25519_PUBLIC_KEY_LENGTH := 32
  const ED25519_SIGNATURE_LENGTH := 64

  const PATH_INVALID := "\"path\" invalid: "

  /** What `bip32-path` makes of a path string: its segments, or the
      message of the error it throws. */
  datatype Parsed = Parsed(segments: seq<uint32>) | ParseError(message: string)

  /** One command as handed to the transport: class, instruction, the two
      parameter bytes, the payload (empty when the source passes
      `undefined`) and the exchange timeout in force when it was sent. */
  datatype Command = Command(cla: int, ins: int, p1: int, p2: int, data: seq<byte>, timeout: int)

  /** The payload of SET_ACCOUNT: `word32Ule("account")`. */
  function AccountPayload(account: uint32): (r: seq<byte>)
    ensures |r| == 4 && ReadLe32(r, 0) == account
  {
    Le32RoundTrip(account, [], []);
    assert Le32(account) == [] + Le32(account) + [];
    Le32(account)
  }

  /** The payload of GEN_ADDRESS: `bip32_index`, `bip32_change`, `count`,
      each `word32Ule`, in that order. */
  function GenerateAddressPayload(index: uint32, change: uint32, count: uint32): (r: seq<byte>)
    ensures |r| == 12
    ensures ReadLe32(r, 0) == index && ReadLe32(r, 4) == change && ReadLe32(r, 8) == count
  {
    var a, b, c := Le32(index), Le32(change), Le32(count);
    Le32RoundTrip(index, [], b + c);
    Le32RoundTrip(change, a, c);
    Le32RoundTrip(count, a + b, []);
    assert a + b + c == [] + a + (b + c) == a + b + c + [];
    a + b + c
  }

  /** The IOTA app's PREPARE_SIGNING payload: `word16Ule("remainder_index")`,
      `word32Ule("remainder_bip32_index")`, `word32Ule("remainder_bip32_change")`. */
  function IotaPrepareSigningPayload(remainderIndex: uint16, bip32Index: uint32, bip32Change: uint32): (r: seq<byte>)
    ensures |r| == 10
  {
    Le16(remainderIndex) + Le32(bip32Index) + Le32(bip32Change)
  }

  /** The three fields read back from where the payload puts them. */
  lemma IotaPrepareSigningFields(remainderIndex: uint16, bip32Index: uint32, bip32Change: uint32)
    ensures var r := IotaPrepareSigningPayload(remainderIndex, bip32Index, bip32Change);
      ReadLe16(r, 0) == remainderIndex && ReadLe32(r, 2) == bip32Index && ReadLe32(r, 6) == bip32Change
  {
    var a, b, c := Le16(remainderIndex), Le32(bip32Index), Le32(bip32Change);
    Le16RoundTrip(remainderIndex, [], b + c);
    Le32RoundTrip(bip32Index, a, c);
    Le32RoundTrip(bip32Change, a + b, []);
    assert a + b + c == [] + a + (b + c) == a + b + c + [];
  }

  /** The Shimmer app's PREPARE_SIGNING payload: three `word32Ule` fields.
      The source assigns the remainder index to a field the struct does not
      declare (`bip32_index`), so `remainder_index` keeps the zero that
      `allocate()` put there. */
  function ShimmerPrepareSigningPayload(bip32Index: uint32, bip32Change: uint32): (r: seq<byte>)
    ensures |r| == 12
    ensures r[..4] == [0, 0, 0, 0]
    ensures ReadLe32(r, 0) == 0 && ReadLe32(r, 4) == bip32Index && ReadLe32(r, 8) == bip32Change
  {
    var a, b, c := Le32(0), Le32(bip32Index), Le32(bip32Change);
    Le32RoundTrip(0, [], b + c);
    Le32RoundTrip(bip32Index, a, c);
    Le32RoundTrip(bip32Change, a + b, []);
    assert a + b + c == [] + a + (b + c) == a + b + c + [];
    a + b + c
  }

  /** The answer to GET_DATA_BUFFER_STATE. */
  datatype BufferState = BufferState(dataLength: uint16, dataType: byte, dataBlockSize: byte, dataBlockCount: byte)

  /** How a device lays the buffer state out: `word16Ule`, then three `word8`. */
  function EncodeBufferState(st: BufferState): (r: seq<byte>)
    ensures |r| == 5
  {
    Le16(st.dataLength) + [st.dataType, st.dataBlockSize, st.dataBlockCount]
  }

  /** `_getDataBufferState`'s reading of the response. */
  function DecodeBufferState(response: seq<byte>): BufferState
  {
    BufferState(ReadLe16(response, 0), ByteAt(response, 2), ByteAt(response, 3), ByteAt(response, 4))
  }

  lemma BufferStateRoundTrip(st: BufferState)
    ensures DecodeBufferState(EncodeBufferState(st)) == st
  {
    Le16RoundTrip(st.dataLength, [], [st.dataType, st.dataBlockSize, st.dataBlockCount]);
    assert EncodeBufferState(st) == [] + Le16(st.dataLength) + [st.dataType, st.dataBlockSize, st.dataBlockCount];
  }

  /** `_readDataBlock`'s result: the `size` bytes of `array("data", size, "word8")`. */
  function DecodeBlock(response: seq<byte>, size: nat): (r: seq<byte>)
    ensures |r| == size
    ensures forall i :: 0 <= i < size ==> r[i] == ByteAt(response, i)
    ensures |response| >= size ==> r == response[..size]
  {
    seq(size, i requires 0 <= i < size => ByteAt(response, i))
  }

  /** The decoded GET_APP_CONFIG answer. */
  datatype AppConfig = AppConfig(appVersion: string, appFlags: byte, device: byte, debug: byte)

  function VersionString(major: byte, minor: byte, patch: byte): string
  {
    NatToDecimal(major) + "." + NatToDecimal(minor) + "." + NatToDecimal(patch)
  }

  /** `_getAppConfig`: six `word8` fields; the version is "major.minor.patch". */
  function DecodeAppConfig(response: seq<byte>): (r: AppConfig)
    ensures r.appFlags == ByteAt(response, 3) && r.device == ByteAt(response, 4) && r.debug == ByteAt(response, 5)
    ensures r.appVersion == VersionString(ByteAt(response, 0), ByteAt(response, 1), ByteAt(response, 2))
  {
    AppConfig(VersionString(ByteAt(response, 0), ByteAt(response, 1), ByteAt(response, 2)),
              ByteAt(response, 3), ByteAt(response, 4), ByteAt(response, 5))
  }

  /** The version components can be read back from the version string. */
  lemma VersionComponents(major: byte, minor: byte, patch: byte)
    ensures Split(VersionString(major, minor, patch), '.') == [NatToDecimal(major), NatToDecimal(minor), NatToDecimal(patch)]
  {
    var a, b, c := NatToDecimal(major), NatToDecimal(minor), NatToDecimal(patch);
    SplitJoin(a, ".", '.', b + "." + c);
    assert VersionString(major, minor, patch) == a + "." + (b + "." + c);
    SplitJoin(b, ".", '.', c);
    assert b + "." + c == b + "." + c;
    SplitPlain(c, '.');
  }

  lemma {:induction false} SplitPlain(s: string, sep: char)
    requires forall i :: 0 <= i < |s| ==> s[i] != sep
    ensures Split(s, sep) == [s]
    decreases |s|
  {
    if |s| > 0 {
      SplitPlain(s[1..], sep);
      assert [s[0]] + s[1..] == s;
    }
  }

  lemma {:induction false} SplitJoin(a: string, sepString: string, sep: char, rest: string)
    requires sepString == [sep]
    requires forall i :: 0 <= i < |a| ==> a[i] != sep
    ensures Split(a + sepString + rest, sep) == [a] + Split(rest, sep)
    decreases |a|
  {
    if |a| == 0 {
      assert a + sepString + rest == [sep] + rest;
      assert (a + sepString + rest)[1..] == rest;
    } else {
      assert (a + sepString + rest)[1..] == a[1..] + sepString + rest;
      SplitJoin(a[1..], sepString, sep, rest);
      assert [a[0]] + a[1..] == a;
    }
  }

  /** A field of a `struct` layout. */
  datatype Field = Word8(name: string) | ByteArray(name: string, length: nat)

  function FieldWidth(f: Field): nat
  {
    match f
    case Word8(_) => 1
    case ByteArray(_, n) => n
  }

  function LayoutWidth(fields: seq<Field>): nat
  {
    if |fields| == 0 then 0 else FieldWidth(fields[0]) + LayoutWidth(fields[1..])
  }

  /** The layout `_signSingle` picks from the first byte of the answer:
      0 is a signature unlock (type, one unnamed byte, public key,
      signature), 1 a reference unlock (type, two bytes named
      `referenceName`); anything else, or an empty answer, is an error.
      Only the layout is built: the source never binds it to the answer. */
  function SignSingleLayout(response: seq<byte>, referenceName: string): (r: Result<seq<Field>>)
    ensures r.Ok? <==> |response| > 0 && (response[0] == 0 || response[0] == 1)
    ensures r.Err? ==> r.error == Thrown("packable error: Invalid variant")
    ensures r.Ok? && response[0] == 0 ==>
      LayoutWidth(r.value) == 1 + 1 + ED25519_PUBLIC_KEY_LENGTH + ED25519_SIGNATURE_LENGTH
      && ByteArray("ed25519_public_key", ED25519_PUBLIC_KEY_LENGTH) in r.value
      && ByteArray("ed25519_signature", ED25519_SIGNATURE_LENGTH) in r.value
    ensures r.Ok? && response[0] == 1 ==>
      LayoutWidth(r.value) == 1 + 2 && ByteArray(referenceName, 2) in r.value
    ensures r.Ok? ==> r.value[0] == Word8("signature_type")
  {
    if |response| > 0 && response[0] == 0 then
      var fields := [Word8("signature_type"), Word8("unknown"),
                     ByteArray("ed25519_public_key", ED25519_PUBLIC_KEY_LENGTH),
                     ByteArray("ed25519_signature", ED25519_SIGNATURE_LENGTH)];
      assert LayoutWidth(fields) == 1 + LayoutWidth(fields[1..]);
      assert LayoutWidth(fields[1..]) == 1 + LayoutWidth(fields[2..]);
      assert LayoutWidth(fields[2..]) == 32 + LayoutWidth(fields[3..]);
      assert LayoutWidth(fields[3..]) == 64 + LayoutWidth(fields[4..]);
      Ok(fields)
    else if |response| > 0 && response[0] == 1 then
      var fields := [Word8("signature_type"), ByteArray(referenceName, 2)];
      assert LayoutWidth(fields) == 1 + LayoutWidth(fields[1..]);
      assert LayoutWidth(fields[1..]) == 2 + LayoutWidth(fields[2..]);
      Ok(fields)
    else
      Err(Thrown("packable error: Invalid variant"))
  }
}
