# IOTA and Shimmer hardware-wallet core, modelled in Dafny

This project models the IOTA family of Ledger Live as the repository
`zignartech/Ledger-Live-iota` implements it. It covers:

- the clients of the IOTA and Shimmer Ledger apps (`hw-app-iota`,
  `hw-app-shimmer`). Each device call is one APDU command that a
  `Transport.Device` records in its trace and answers from a scripted
  device state. The path checks, the data-buffer upload and download in
  blocks, the address query, the signing commands and the app
  configuration are all stated against that trace;
- the Stardust signer (`js-signOperation.ts`): the greedy input selector
  `calculateInputs` (which compares BigNumbers as strings), the
  transaction payload with its inputs commitment, the unlock loop over
  `_signSingle`, and the optimistic operation it reports;
- the Chrysalis-era signer (`signOperation.ts`): the argument checks, the
  indexation key, the outputs built per entry, inputs and outputs sorted by
  their serialised hex, the device commands, the reported value and
  recipients, and the events `signOperation` emits;
- the indexer client (`api/index.ts`): the balance, the account record, the
  operation history and `txToOp`, which turns a block into an operation;
- the wallet rules around them: the network ids, the amount a transaction
  moves, the transaction status checks, the minimum balance, transaction
  creation and patching, token ids, and the serialisers for operation extras
  and account resources.

Methods sit where the source loops or changes state. Each one is proved
against a function that specifies its commands and its result. Lemmas about
those functions state what the source promises: the round trip through the
device buffer, the facts about input selection, the sortedness and
permutation of the essence, and how the reported value splits.

The model follows the code where the code departs from its own design:

- `calculateInputs` stops on `consumedBalance >= requiredBalance` and throws
  on `consumedBalance < requiredBalance`. Both are string comparisons of the
  decimal values, so an output of 9 covers a requirement of 10, and an
  output of 10 never covers a requirement of 9.
- The selector pushes the remainder onto the caller's `outputs`. The Stardust
  essence holds only the recipient output, so the remainder never reaches
  the payload.
- Outputs are not de-duplicated across passes of the selector.
- `_signSingle` builds a layout and never binds it to the answer. Every
  unlock is therefore a signature unlock whose key and signature are
  `undefined`.
- The Shimmer `_writeDataBlock` sends the PREPARE_SIGNING instruction. The
  Shimmer PREPARE_SIGNING payload never carries the remainder index.
- The legacy loop passes the input object to `_signSingle` where an index is
  expected.
- `txToOp` builds spent output ids as the transaction id, then `"0"`, then the
  decimal output index.
- The status tests in `bridge.integration.test.ts` send every transaction to
  the account's own fresh address. `getTransactionStatus` then also reports
  the recipient error in the "Amount Required" and "Not enough balance"
  cases, which the tests' expected error records leave out.

## Model

| member | source | states |
|---|---|---|
| Apdu.AccountPayload | libs/ledger-live-common/src/families/iota/hw-app-iota/index.ts:135-141 | the SET_ACCOUNT payload is 4 bytes and its little-endian word is the account index |
| Apdu.GenerateAddressPayload | libs/ledger-live-common/src/families/iota/hw-app-iota/index.ts:373-396 | the GEN_ADDRESS payload is 12 bytes holding the index, the change and the count, in that order |
| Apdu.IotaPrepareSigningFields | libs/ledger-live-common/src/families/iota/hw-app-iota/index.ts:348-371 | the three fields of the IOTA PREPARE_SIGNING payload read back as the remainder index (16 bits), then the BIP-32 index and the change |
| Apdu.ShimmerPrepareSigningPayload | libs/ledger-live-common/src/families/shimmer/hw-app-shimmer/index.ts:263-281 | the Shimmer PREPARE_SIGNING payload is 12 bytes; its first word is always zero and the BIP-32 index and change follow |
| Apdu.BufferStateRoundTrip | libs/ledger-live-common/src/families/iota/hw-app-iota/index.ts:145-173 | decoding the buffer state a device lays out gives the state back |
| Apdu.DecodeBlock | libs/ledger-live-common/src/families/iota/hw-app-iota/index.ts:186-210 | a read block has exactly the requested size, holds the answer's bytes and zeros past its end, and is the answer's prefix when the answer is long enough |
| Apdu.DecodeAppConfig | libs/ledger-live-common/src/families/iota/hw-app-iota/index.ts:435-470 | the flags, device and debug bytes are answer bytes 3 to 5, and the version is built from bytes 0 to 2 |
| Apdu.VersionComponents | libs/ledger-live-common/src/families/iota/hw-app-iota/index.ts:435-470 | splitting the version string on "." gives the three components in decimal |
| Apdu.SignSingleLayout | libs/ledger-live-common/src/families/iota/hw-app-iota/index.ts:408-433 | an answer is accepted iff its first byte is 0 or 1; 0 gives the signature layout with key and signature fields and 1 the two-byte reference layout; anything else is "packable error: Invalid variant" |
| Bytes.SetBytes | libs/ledger-live-common/src/families/iota/hw-app-iota/index.ts:282 | copying a block into the buffer at an offset puts it there and leaves every other byte as it was |
| Transport.Device.Send | libs/ledger-live-common/src/families/iota/hw-app-iota/index.ts:482-502 | a send appends exactly one command, with the timeout in force, to the trace, and answers with what the device returns |
| Transport.Device.SetExchangeTimeout | libs/ledger-live-common/src/families/iota/hw-app-iota/index.ts:482-502 | the timeout is set to the given value and nothing else changes |
| DataBuffer.WriteLoopBound | libs/ledger-live-common/src/families/iota/hw-app-iota/index.ts:226-238 | the loop test `block < blocksNeeded` on JS numbers holds for exactly the first WriteCount block numbers |
| DataBuffer.CapacityTest | libs/ledger-live-common/src/families/iota/hw-app-iota/index.ts:226-235 | the capacity check throws iff more blocks would be written than the buffer holds |
| DataBuffer.ReadCountIsCeiling | libs/ledger-live-common/src/families/iota/hw-app-iota/index.ts:270-286 | `Math.ceil(len / blockSize)` is the least number of blocks that holds len bytes |
| DataBuffer.ReadWithinWritten | libs/ledger-live-common/src/families/iota/hw-app-iota/index.ts:226-286 | the upload writes every block the download reads, and one block more when the length is not a multiple of the block size |
| DataBuffer.PaddedBlockBytes | libs/ledger-live-common/src/families/iota/hw-app-iota/index.ts:244-252 | each written block is exactly blockSize bytes: the data at its offset, then zeros |
| DataBuffer.WriteFrameAt | libs/ledger-live-common/src/families/iota/hw-app-iota/index.ts:238-256 | the upload's write number b writes block b, padded |
| DataBuffer.UploadStartsWithClear | libs/ledger-live-common/src/families/iota/hw-app-iota/index.ts:213-223 | every upload first clears the buffer and then queries its state |
| DataBuffer.UploadAccepted | libs/ledger-live-common/src/families/iota/hw-app-iota/index.ts:213-257 | on an accepting device with an Empty buffer large enough, the upload succeeds and sends exactly the clear, the query and the padded blocks in order |
| DataBuffer.UploadRefusedByState | libs/ledger-live-common/src/families/iota/hw-app-iota/index.ts:221-235 | a buffer that is not Empty, or too small, makes the upload throw before any block is written |
| DataBuffer.TrailingBlockIsEmpty | libs/ledger-live-common/src/families/iota/hw-app-iota/index.ts:226-256 | when the length is not a multiple of the block size, the last block written is all zeros |
| DataBuffer.UploadStoresBlocks | libs/ledger-live-common/src/families/iota/hw-app-iota/index.ts:213-257 | after a successful upload the device holds every padded block and reports an empty buffer of the Empty type |
| DataBuffer.ReadsChangeNothing | libs/ledger-live-common/src/families/iota/hw-app-iota/index.ts:270-286 | block reads never change the device |
| DataBuffer.ReadBlocksAccepted | libs/ledger-live-common/src/families/iota/hw-app-iota/index.ts:270-286 | when reads are answered, the download reads ceil(len / blockSize) blocks and returns the first len bytes gathered |
| DataBuffer.DownloadChangesNothing | libs/ledger-live-common/src/families/iota/hw-app-iota/index.ts:270-286 | a whole download leaves the device as it was |
| DataBuffer.DownloadLength | libs/ledger-live-common/src/families/iota/hw-app-iota/index.ts:270-286 | a successful download returns exactly the reported length of bytes |
| DataBuffer.DownloadOfHeldBlocks | libs/ledger-live-common/src/families/iota/hw-app-iota/index.ts:270-286 | a device that holds the padded blocks of some data and reports its length hands back that data |
| DataBuffer.UploadThenDownload | libs/ledger-live-common/src/families/iota/hw-app-iota/index.ts:213-286 | uploading a blob and reading it back, once the device reports its length, gives the same blob |
| DataBuffer.Upload | libs/ledger-live-common/src/families/iota/hw-app-iota/index.ts:213-257 | the upload specification: clear, query, the capacity and type checks, then one write per padded block; its properties are stated by UploadAccepted, UploadRefusedByState and UploadStoresBlocks |
| DataBuffer.Download | libs/ledger-live-common/src/families/iota/hw-app-iota/index.ts:270-286 | the download specification: the state query, then the reads; its properties are stated by DownloadLength, DownloadChangesNothing and UploadThenDownload |
| DataBuffer.ReadBlocks | libs/ledger-live-common/src/families/iota/hw-app-iota/index.ts:272-285 | the reads once the state is known, including the block size 0 case; stated by ReadBlocksAccepted and ZeroBlockSizeReads |
| DataBuffer.ZeroBlockSizeReads | libs/ledger-live-common/src/families/iota/hw-app-iota/index.ts:272-282 | with block size 0 and data to read, the first read is sent; a refusal is thrown as the device error, and an answer keeps the loop reading for ever |
| IotaHw.Harden | libs/ledger-live-common/src/families/iota/hw-app-iota/index.ts:94-98 | every bare 0 segment becomes the first hardened index and the other segments are kept |
| IotaHw.NormalisedPath | libs/ledger-live-common/src/families/iota/hw-app-iota/index.ts:85-111 | a path is accepted iff it parses with 3 or 5 levels; the result has 5 levels, zeros hardened, and a 3-level path gains two hardened zeros; parse and length errors carry the source's messages |
| IotaHw.ValidatePath | libs/ledger-live-common/src/families/iota/hw-app-iota/index.ts:85-111 | the path check, including its re-validation of the extended 3-level path, returns NormalisedPath |
| IotaHw.AppMode | libs/ledger-live-common/src/families/iota/hw-app-iota/index.ts:121-133 | a mode exists iff the currency is iota, shimmer or shimmer_testnet; iota maps to the Stardust mode and both Shimmer ids to the Shimmer mode |
| IotaHw.AddressCommands | libs/ledger-live-common/src/families/iota/hw-app-iota/index.ts:69-81 | nothing is sent iff the path or the currency is refused; otherwise SET_ACCOUNT carries the mode and level 3, then GEN_ADDRESS carries level 5, level 4 and count 1 with p1 = verify and the user-interaction timeout |
| IotaHw.IotaApp.constructor | libs/ledger-live-common/src/families/iota/hw-app-iota/index.ts:36-43 | the client keeps the transport and the constants it is given |
| IotaHw.IotaApp.SendCommand | libs/ledger-live-common/src/families/iota/hw-app-iota/index.ts:482-502 | exactly one command, with the app class byte and the given timeout, is sent, and its answer is returned |
| IotaHw.IotaApp.SetAccount | libs/ledger-live-common/src/families/iota/hw-app-iota/index.ts:113-143 | an unknown currency sends nothing and throws INCORRECT_P1P2; a known one sends SET_ACCOUNT with its mode |
| IotaHw.IotaApp.GetDataBufferState | libs/ledger-live-common/src/families/iota/hw-app-iota/index.ts:145-173 | one state query is sent and its answer is decoded |
| IotaHw.IotaApp.ClearDataBuffer | libs/ledger-live-common/src/families/iota/hw-app-iota/index.ts:175-184 | one clear command is sent |
| IotaHw.IotaApp.ReadDataBlock | libs/ledger-live-common/src/families/iota/hw-app-iota/index.ts:186-210 | one block read is sent and the result is the answer's first size bytes |
| IotaHw.IotaApp.WriteDataBlock | libs/ledger-live-common/src/families/iota/hw-app-iota/index.ts:259-268 | one WRITE_DATA_BLOCK with the block number as p1 is sent |
| IotaHw.IotaApp.WriteDataBuffer | libs/ledger-live-common/src/families/iota/hw-app-iota/index.ts:213-257 | the commands sent and the result are those of the upload specification |
| IotaHw.IotaApp.UploadBlocks | libs/ledger-live-common/src/families/iota/hw-app-iota/index.ts:221-256 | once the state is known, the checks and writes are those of the specification |
| IotaHw.IotaApp.WriteAllBlocks | libs/ledger-live-common/src/families/iota/hw-app-iota/index.ts:238-256 | the loop sends every padded block in order, or stops after the first one when writes are refused |
| IotaHw.IotaApp.GetData | libs/ledger-live-common/src/families/iota/hw-app-iota/index.ts:270-286 | the commands sent and the result are those of the download specification, including the first read sent, and its refusal thrown, for a block size of 0 |
| IotaHw.IotaApp.ReadAllBlocks | libs/ledger-live-common/src/families/iota/hw-app-iota/index.ts:270-286 | once the state is known, the reads and result are those of the specification, including the first read, and its refusal thrown, for a block size of 0 |
| IotaHw.IotaApp.ReadInto | libs/ledger-live-common/src/families/iota/hw-app-iota/index.ts:276-284 | the loop reads blocks 0 to n-1 into the buffer at a running offset, or stops after the first read when reads are refused |
| IotaHw.IotaApp.ShowMainFlow | libs/ledger-live-common/src/families/iota/hw-app-iota/index.ts:288-296 | one SHOW_FLOW with the main-menu flow is sent |
| IotaHw.IotaApp.ShowGeneratingAddressesFlow | libs/ledger-live-common/src/families/iota/hw-app-iota/index.ts:298-306 | one SHOW_FLOW with the generating-addresses flow is sent |
| IotaHw.IotaApp.ShowGenericErrorFlow | libs/ledger-live-common/src/families/iota/hw-app-iota/index.ts:308-316 | one SHOW_FLOW with the generic-error flow is sent |
| IotaHw.IotaApp.ShowRejectedFlow | libs/ledger-live-common/src/families/iota/hw-app-iota/index.ts:318-326 | one SHOW_FLOW with the rejected flow is sent |
| IotaHw.IotaApp.ShowSignedSuccessfullyFlow | libs/ledger-live-common/src/families/iota/hw-app-iota/index.ts:328-336 | one SHOW_FLOW with the signed-successfully flow is sent |
| IotaHw.IotaApp.ShowSigningFlow | libs/ledger-live-common/src/families/iota/hw-app-iota/index.ts:338-346 | one SHOW_FLOW with the signing flow is sent |
| IotaHw.IotaApp.PrepareSigning | libs/ledger-live-common/src/families/iota/hw-app-iota/index.ts:348-371 | one PREPARE_SIGNING with the remainder index and BIP-32 fields is sent |
| IotaHw.IotaApp.GenerateAddress | libs/ledger-live-common/src/families/iota/hw-app-iota/index.ts:373-396 | one GEN_ADDRESS with the index, the change and the count is sent, with p1 = verify |
| IotaHw.IotaApp.UserConfirmEssence | libs/ledger-live-common/src/families/iota/hw-app-iota/index.ts:398-406 | one USER_CONFIRM_ESSENCE is sent and its answer is not awaited |
| IotaHw.IotaApp.SignSingle | libs/ledger-live-common/src/families/iota/hw-app-iota/index.ts:408-433 | one SIGN_SINGLE with the index as p1 is sent and the layout chosen by the answer's first byte is returned |
| IotaHw.IotaApp.GetAppConfig | libs/ledger-live-common/src/families/iota/hw-app-iota/index.ts:435-470 | one GET_APP_CONFIG is sent and its answer is decoded |
| IotaHw.IotaApp.GetAppVersion | libs/ledger-live-common/src/families/iota/hw-app-iota/index.ts:50-54 | the version is that of the decoded app config |
| IotaHw.IotaApp.Reset | libs/ledger-live-common/src/families/iota/hw-app-iota/index.ts:472-480 | one RESET with p1 = partial is sent |
| IotaHw.IotaApp.GetAddress | libs/ledger-live-common/src/families/iota/hw-app-iota/index.ts:69-81 | the commands and the raw address are those of the address specification, and the address is formed from its bytes |
| IotaHw.IotaApp.ReadAddress | libs/ledger-live-common/src/families/iota/hw-app-iota/index.ts:77-78 | once the account is set, the generate command and the buffer read are sent in that order, and the raw address is what the read gives back |
| ShimmerHw.ValidatePath | libs/ledger-live-common/src/families/shimmer/hw-app-shimmer/index.ts:103-116 | a path is accepted iff it parses with exactly 5 levels, and it is returned unchanged; the errors carry the source's messages |
| ShimmerHw.ShimmerPathsAreIotaPaths | libs/ledger-live-common/src/families/shimmer/hw-app-shimmer/index.ts:103-116 | every Shimmer path is an IOTA path, and the two checks agree when no level is 0; 3-level paths are IOTA-only |
| ShimmerHw.WriteDataBlockIsPrepareSigning | libs/ledger-live-common/src/families/shimmer/hw-app-shimmer/index.ts:178-186 | the Shimmer block write is the IOTA write with instruction 0xa0 (PREPARE_SIGNING) and leaves the device buffer unchanged |
| ShimmerHw.PrepareSigningPayload | libs/ledger-live-common/src/families/shimmer/hw-app-shimmer/index.ts:263-281 | the command has p1 1, the given p2, the user-interaction timeout and a 12-byte payload with a zero first word; the remainder index does not affect it |
| ShimmerHw.Display | libs/ledger-live-common/src/families/shimmer/hw-app-shimmer/index.ts:91 | the address is shown iff `options.display` is true |
| ShimmerHw.Prefix | libs/ledger-live-common/src/families/shimmer/hw-app-shimmer/index.ts:92 | a missing or empty prefix becomes "smr"; any other one is kept; the prefix is never empty |
| ShimmerHw.AddressCommands | libs/ledger-live-common/src/families/shimmer/hw-app-shimmer/index.ts:88-99 | nothing is sent iff the path is refused or there are no options; otherwise SET_ACCOUNT with p1 0 carries level 3, then GEN_ADDRESS carries level 5, level 4 and count 1 with p1 = display |
| ShimmerHw.ShimmerApp.constructor | libs/ledger-live-common/src/families/shimmer/hw-app-shimmer/index.ts:60-64 | the client keeps the transport it is given |
| ShimmerHw.ShimmerApp.SendCommand | libs/ledger-live-common/src/families/shimmer/hw-app-shimmer/index.ts:385-397 | exactly one command with the app class byte and the given timeout is sent, and its answer is returned |
| ShimmerHw.ShimmerApp.SetAccount | libs/ledger-live-common/src/families/shimmer/hw-app-shimmer/index.ts:118-131 | one SET_ACCOUNT with p1 0 and the account index is sent |
| ShimmerHw.ShimmerApp.GetDataBufferState | libs/ledger-live-common/src/families/shimmer/hw-app-shimmer/index.ts:133-156 | one state query is sent and its answer is decoded |
| ShimmerHw.ShimmerApp.ReadDataBlock | libs/ledger-live-common/src/families/shimmer/hw-app-shimmer/index.ts:158-176 | one block read is sent and the result is the answer's first size bytes |
| ShimmerHw.ShimmerApp.WriteDataBlock | libs/ledger-live-common/src/families/shimmer/hw-app-shimmer/index.ts:178-186 | one command with the PREPARE_SIGNING instruction carrying the block is sent |
| ShimmerHw.ShimmerApp.GetData | libs/ledger-live-common/src/families/shimmer/hw-app-shimmer/index.ts:188-201 | the commands sent and the result are those of the download specification, including the first read sent, and its refusal thrown, for a block size of 0 |
| ShimmerHw.ShimmerApp.ReadAllBlocks | libs/ledger-live-common/src/families/shimmer/hw-app-shimmer/index.ts:188-201 | once the state is known, the reads and result are those of the specification, including the first read, and its refusal thrown, for a block size of 0 |
| ShimmerHw.ShimmerApp.ReadInto | libs/ledger-live-common/src/families/shimmer/hw-app-shimmer/index.ts:194-199 | the loop reads blocks 0 to n-1 into the buffer at a running offset, or stops after the first read when reads are refused |
| ShimmerHw.ShimmerApp.PrepareSigning | libs/ledger-live-common/src/families/shimmer/hw-app-shimmer/index.ts:263-281 | one PREPARE_SIGNING with the Shimmer payload is sent |
| ShimmerHw.ShimmerApp.GenerateAddress | libs/ledger-live-common/src/families/shimmer/hw-app-shimmer/index.ts:283-301 | one GEN_ADDRESS with the index, the change and the count is sent, with p1 = display |
| ShimmerHw.ShimmerApp.SignSingle | libs/ledger-live-common/src/families/shimmer/hw-app-shimmer/index.ts:313-341 | one SIGN_SINGLE is sent and the answer's layout is returned, with the reference bytes named `data` |
| ShimmerHw.ShimmerApp.GetAppConfig | libs/ledger-live-common/src/families/shimmer/hw-app-shimmer/index.ts:343-373 | one GET_APP_CONFIG is sent and its answer is decoded |
| ShimmerHw.ShimmerApp.GetAppVersion | libs/ledger-live-common/src/families/shimmer/hw-app-shimmer/index.ts:71-74 | the version is that of the decoded app config |
| ShimmerHw.ShimmerApp.GetAddress | libs/ledger-live-common/src/families/shimmer/hw-app-shimmer/index.ts:88-99 | the commands are those of the address specification, and the address is the Bech32 form under the chosen prefix |
| ShimmerHw.ShimmerApp.ReadAddress | libs/ledger-live-common/src/families/shimmer/hw-app-shimmer/index.ts:95-97 | once the account is set, the generate command with the display flag and the buffer read are sent in that order, and the raw address is what the read gives back |
| InputSelection.JsCompareSameLength | libs/ledger-live-common/src/families/iota/js-signOperation.ts:309 | for amounts with as many digits, the string comparisons of the stop test and the throw test agree with numeric order |
| InputSelection.JsCompareDiffers | libs/ledger-live-common/src/families/iota/js-signOperation.ts:309-344 | with different digit counts they disagree: 9 passes `>= 10` and 10 passes `< 9` |
| InputSelection.FindAddressUnlock | libs/ledger-live-common/src/families/iota/js-signOperation.ts:316-319 | an address unlock is found iff one exists, and it is the first of that type |
| InputSelection.RemainderShape | libs/ledger-live-common/src/families/iota/js-signOperation.ts:309-331 | at most one remainder is pushed, only for a surplus and an Ed25519 address, and it pays the surplus back to that address |
| InputSelection.ConsiderShape | libs/ledger-live-common/src/families/iota/js-signOperation.ts:285-335 | an output is skipped when it is spent or not needed; a zero output counts toward the empty tally; otherwise it is taken, its amount is added, and the stop test and remainder follow the string comparison |
| InputSelection.CalculateInputs | libs/ledger-live-common/src/families/iota/js-signOperation.ts:232-347 | the do-while over the indexer's answers returns the selection specification |
| InputSelection.ScanPage | libs/ledger-live-common/src/families/iota/js-signOperation.ts:282-336 | the inner loop over one answer applies the loop body to each output in order |
| InputSelection.ConsiderOutput | libs/ledger-live-common/src/families/iota/js-signOperation.ts:283-335 | the loop body computes the specified step |
| InputSelection.Consider | libs/ledger-live-common/src/families/iota/js-signOperation.ts:283-335 | one output of an indexer answer: skipped, counted as empty, or taken with the string stop test and its remainder; stated by ConsiderShape |
| InputSelection.CalculateInputsOutcome | libs/ledger-live-common/src/families/iota/js-signOperation.ts:232-347 | the selection specification over the indexer's answers; stated by SelectionProperties, InsufficientFunds and EmptyAddress |
| InputSelection.SelectionProperties | libs/ledger-live-common/src/families/iota/js-signOperation.ts:232-347 | on success every input spends an unspent, non-zero output of the address, in indexer order; each was taken while still short; the string stop test held; and `outputs` gains at most the one remainder, paid to the last input's Ed25519 address |
| InputSelection.InsufficientFunds | libs/ledger-live-common/src/families/iota/js-signOperation.ts:340-344 | the selector throws for want of funds iff it stopped and the string comparison says the consumed balance is short, and then no remainder was pushed |
| InputSelection.SamePageSelectedTwice | libs/ledger-live-common/src/families/iota/js-signOperation.ts:263-338 | an output listed again on the next pass is selected a second time |
| InputSelection.ShortfallAccepted | libs/ledger-live-common/src/families/iota/js-signOperation.ts:309-344 | with 10 required and one output of 9, the selector returns that input and does not throw |
| InputSelection.FirstOutputStops | libs/ledger-live-common/src/families/iota/js-signOperation.ts:263-347 | a single answer whose one unspent, non-empty output passes the string stop test yields exactly that output as the input, plus its remainder |
| InputSelection.SurplusNeverStops | libs/ledger-live-common/src/families/iota/js-signOperation.ts:263-338 | with 9 required and an output of 10, no number of passes ever stops the loop |
| InputSelection.EmptyAddress | libs/ledger-live-common/src/families/iota/js-signOperation.ts:276-280 | an address with no outputs stops after zeroCount empty answers, and throws iff something is required |
| StardustPayload.ReadResponse | libs/ledger-live-common/src/families/iota/js-signOperation.ts:193-212 | every property the unlock loop reads from `_signSingle`'s unbound layout is undefined |
| StardustPayload.UnlockOf | libs/ledger-live-common/src/families/iota/js-signOperation.ts:193-212 | a reference unlock iff `signature_type` is truthy, carrying the reference; otherwise an Ed25519 signature unlock of the key and signature read |
| StardustPayload.RecipientOutput | libs/ledger-live-common/src/families/iota/js-signOperation.ts:105-138 | the essence output is a basic output of the amount whose address unlock pays the recipient |
| StardustPayload.HashedOutputsLayout | libs/ledger-live-common/src/families/iota/js-signOperation.ts:165-172 | the digest of input i's serialised output occupies bytes 32i to 32i+32 of what the commitment hashes |
| StardustPayload.CommitmentOf | libs/ledger-live-common/src/families/iota/js-signOperation.ts:165-172 | the inputs commitment is "0x" followed by 64 hex digits |
| StardustPayload.InputsCommitment | libs/ledger-live-common/src/families/iota/js-signOperation.ts:165-172 | hashing the consumed outputs one by one gives the commitment of their concatenation |
| StardustPayload.InputsOf | libs/ledger-live-common/src/families/iota/js-signOperation.ts:140-163 | the essence inputs are the selected inputs' UTXO inputs, in order |
| StardustPayload.SignableIff | libs/ledger-live-common/src/families/iota/js-signOperation.ts:193-212 | an input can be signed iff SIGN_SINGLE is not refused and the device's answer starts with 0 or 1 |
| StardustPayload.SignAllShape | libs/ledger-live-common/src/families/iota/js-signOperation.ts:193-212 | inputs are asked for in order and the loop stops at the first failure; it succeeds iff every input can be signed, and then gives one unlock per input |
| StardustPayload.SignAllKeepsState | libs/ledger-live-common/src/families/iota/js-signOperation.ts:193-212 | signing leaves the device state as it was |
| StardustPayload.SignAllAfterFailure | libs/ledger-live-common/src/families/iota/js-signOperation.ts:193-212 | once a signature fails, asking for more inputs changes nothing |
| StardustPayload.BuildTransactionPayload | libs/ledger-live-common/src/families/iota/js-signOperation.ts:92-221 | the commands sent and the payload are those of the payload specification |
| StardustPayload.PayloadFromSelection | libs/ledger-live-common/src/families/iota/js-signOperation.ts:140-221 | after selection, the commands and the payload are those of the specification |
| StardustPayload.SignEssence | libs/ledger-live-common/src/families/iota/js-signOperation.ts:188-212 | it writes the essence, prepares signing and confirms, then signs, as specified |
| StardustPayload.WriteEssence | libs/ledger-live-common/src/families/iota/js-signOperation.ts:188-190 | it sends block 0 of the essence, PREPARE_SIGNING(0,0,0,0) and the confirmation, none of them awaited |
| StardustPayload.SignInputs | libs/ledger-live-common/src/families/iota/js-signOperation.ts:193-212 | the unlock loop sends and returns what the signing specification says |
| StardustPayload.SignOne | libs/ledger-live-common/src/families/iota/js-signOperation.ts:194-211 | one SIGN_SINGLE is sent, the device is unchanged, and the step's unlock or error is returned |
| StardustPayload.PayloadProperties | libs/ledger-live-common/src/families/iota/js-signOperation.ts:92-221 | a bad currency or a failed selection sends nothing; a payload is a transaction payload with the network id, the selected inputs, their commitment, the single recipient output, no inner payload and one unbound unlock per input; the commands are the three essence commands, then SIGN_SINGLE 0, 1, … |
| StardustPayload.BuildOptimisticOperation | libs/ledger-live-common/src/families/iota/js-signOperation.ts:54-81 | the operation has id account.id + "--OUT", type OUT, fee 0, no block fields, the given value, senders and recipients, date now and empty extra |
| StardustPayload.EssenceOf | libs/ledger-live-common/src/families/iota/js-signOperation.ts:140-182 | the essence: the network id, the selected inputs, their commitment, the recipient output alone and no payload; stated by PayloadProperties |
| StardustPayload.SignedOperationOf | libs/ledger-live-common/src/families/iota/js-signOperation.ts:387-412 | the signed operation: the optimistic operation of the amount from the fresh address and the first signature; stated by ReportedSignatureIsUndefined |
| StardustPayload.FirstSignature | libs/ledger-live-common/src/families/iota/js-signOperation.ts:390-397 | a signature is reported iff some unlock is a signature unlock, and it is the first such unlock's signature |
| StardustPayload.ReportedSignatureIsUndefined | libs/ledger-live-common/src/families/iota/js-signOperation.ts:387-404 | the signed operation reports the amount, no recipients and the fresh address as sender; its signature is undefined, or "" when there are no inputs |
| LegacySignOperation.ValueHex | libs/ledger-live-common/src/families/iota/signOperation.ts:105-128 | the hex of a key or data value has two digits per byte it stands for |
| LegacySignOperation.IndexationKeyHex | libs/ledger-live-common/src/families/iota/signOperation.ts:105-128 | with no truthy key there is no key hex; a key of 1 to 64 bytes gives its hex; shorter or longer keys throw the source's messages |
| LegacySignOperation.KeyHexNonEmpty | libs/ledger-live-common/src/families/iota/signOperation.ts:105-128 | an accepted key hex is present iff a truthy key was given, and then it is not empty |
| LegacySignOperation.SigLockedOf | libs/ledger-live-common/src/families/iota/signOperation.ts:135-156 | a dust-allowance entry becomes a dust-allowance output and any other entry a single output, with the same address and amount |
| LegacySignOperation.SerializeOutputs | libs/ledger-live-common/src/families/iota/signOperation.ts:135-156 | the loop over the outputs gives the serialised-outputs specification |
| LegacySignOperation.SerializedOutputsStop | libs/ledger-live-common/src/families/iota/signOperation.ts:135-156 | once an entry is refused, later entries change nothing |
| LegacySignOperation.SerializedOutputsProperties | libs/ledger-live-common/src/families/iota/signOperation.ts:135-156 | the outputs are accepted iff every address is Ed25519, and then give one output per entry, in order, keyed by its serialisation; otherwise the error names the first other address type |
| LegacySignOperation.SerializedItems | libs/ledger-live-common/src/families/iota/signOperation.ts:135-156 | accepted entries hold the built outputs in order, each keyed by its serialisation |
| LegacySignOperation.KeyedInputs | libs/ledger-live-common/src/families/iota/signOperation.ts:158-168 | each input is keyed by its serialisation and the inputs keep their order |
| KeyedSort.SortSorted | libs/ledger-live-common/src/families/iota/signOperation.ts:171-176 | the sort orders the elements by key |
| KeyedSort.SortPermutes | libs/ledger-live-common/src/families/iota/signOperation.ts:171-176 | the sorted items are a permutation of the items given |
| KeyedSort.SortKeyedBy | libs/ledger-live-common/src/families/iota/signOperation.ts:171-176 | sorting keeps each element keyed by its serialisation |
| KeyedSort.ItemsOrdered | libs/ledger-live-common/src/families/iota/signOperation.ts:171-176 | the items of a sorted keyed sequence are in order of their serialisation |
| KeyedSort.SortStable | libs/ledger-live-common/src/families/iota/signOperation.ts:171-176 | the sort is stable: for every key, the elements with that key come out in the order they went in |
| LegacySignOperation.LegacySignAllCommands | libs/ledger-live-common/src/families/iota/signOperation.ts:207-226 | every signing request carries the object-as-p1 byte, there are at most as many as inputs, and none changes the device |
| LegacySignOperation.LegacySignAllSigned | libs/ledger-live-common/src/families/iota/signOperation.ts:207-226 | with a signable answer, one request and one unbound signature unlock per input |
| LegacySignOperation.LegacySignAllRefused | libs/ledger-live-common/src/families/iota/signOperation.ts:207-226 | without one, the first request fails and nothing more is asked |
| LegacySignOperation.LegacySignAllAfterFailure | libs/ledger-live-common/src/families/iota/signOperation.ts:207-226 | once a request fails, more inputs change nothing |
| LegacySignOperation.LegacyBuildTransactionPayload | libs/ledger-live-common/src/families/iota/signOperation.ts:83-235 | the commands sent and the payload are those of the legacy payload specification |
| LegacySignOperation.SignLegacyEssence | libs/ledger-live-common/src/families/iota/signOperation.ts:171-226 | once the arguments are accepted, the sorting, writing, confirmation and signing are as specified |
| LegacySignOperation.WriteLegacyEssence | libs/ledger-live-common/src/families/iota/signOperation.ts:202-204 | block 0 of the essence and the confirmation are sent, neither awaited, and no PREPARE_SIGNING |
| LegacySignOperation.SignLegacyInputs | libs/ledger-live-common/src/families/iota/signOperation.ts:207-226 | the loop over the sorted inputs sends and returns what the legacy signing specification says |
| LegacySignOperation.LegacyPayloadProperties | libs/ledger-live-common/src/families/iota/signOperation.ts:171-234 | a payload has the Chrysalis types; its inputs and outputs are sorted by serialised hex and are permutations of the given inputs and the built outputs; an indexation payload with the key hex is present iff a truthy key was given; there is one unlock per input |
| LegacySignOperation.LegacyPayloadCommands | libs/ledger-live-common/src/families/iota/signOperation.ts:98-226 | empty inputs or outputs throw the source's messages and send nothing; a refused key or output sends nothing; otherwise the essence write and confirmation come first, then SIGN_SINGLE requests, and the payload is built iff every input was asked for and the answer is signable |
| LegacySignOperation.TallyOutputs | libs/ledger-live-common/src/families/iota/signOperation.ts:292-304 | the loop over the outputs computes the reported value and recipients |
| LegacySignOperation.ValueSplits | libs/ledger-live-common/src/families/iota/signOperation.ts:292-304 | the reported value plus the amounts of dust allowances and payments back to the fresh address is the total |
| LegacySignOperation.RecipientsAre | libs/ledger-live-common/src/families/iota/signOperation.ts:292-304 | the recipients are exactly the addresses of entries that are neither dust allowances nor the fresh address, and never the fresh address |
| LegacySignOperation.FindSignature | libs/ledger-live-common/src/families/iota/signOperation.ts:305-311 | the loop finds the signature of the first signature unlock |
| LegacySignOperation.LegacySignOperation | libs/ledger-live-common/src/families/iota/signOperation.ts:247-333 | the device commands are those of the payload specification, and the events and error are those of the emission specification |
| LegacySignOperation.LegacyPayloadOutcome | libs/ledger-live-common/src/families/iota/signOperation.ts:83-235 | the legacy payload specification; stated by LegacyPayloadProperties and LegacyPayloadCommands |
| LegacySignOperation.LegacyEmission | libs/ledger-live-common/src/families/iota/signOperation.ts:247-333 | the events and the error of the legacy operation; stated by LegacyReport |
| LegacySignOperation.LegacyReport | libs/ledger-live-common/src/families/iota/signOperation.ts:288-326 | a submitted payload emits requested, granted and signed, with no error; the signed operation has the counted value and recipients, the fresh address as sender and an undefined signature |
| IndexerApi.SendersOf | libs/ledger-live-common/src/families/iota/api/index.ts:154-170 | one sender per input, each the address of the output that input spends |
| IndexerApi.OutputCheck | libs/ledger-live-common/src/families/iota/api/index.ts:216-224 | an output is checked iff it is a basic output with exactly one unlock condition, an address unlock; used by ValueSplits and RecipientsAre |
| IndexerApi.SpentOutputId | libs/ledger-live-common/src/families/iota/api/index.ts:155-157 | the id of the output an input spends: its transaction id, "0" and the index in decimal, as written |
| IndexerApi.TxOperation | libs/ledger-live-common/src/families/iota/api/index.ts:130-214 | the operation a block gives; stated by TxOperationNull, TxOperationFields, ValueSplits and RecipientsAre |
| IndexerApi.Operations | libs/ledger-live-common/src/families/iota/api/index.ts:108-128 | the history over the output ids, in order; stated by OperationsKept |
| IndexerApi.TxToOp | libs/ledger-live-common/src/families/iota/api/index.ts:130-214 | the loops over inputs and outputs give the operation specification |
| IndexerApi.TxOperationNull | libs/ledger-live-common/src/families/iota/api/index.ts:137-140 | there is no operation iff the block is missing, has no payload, or its payload type is not 6 |
| IndexerApi.TxOperationFields | libs/ledger-live-common/src/families/iota/api/index.ts:198-211 | the type is OUT iff the account's address is among the senders and IN otherwise; the id, hash, fee, block fields, account id and date (seconds times 1000) are as built |
| IndexerApi.ValueSplits | libs/ledger-live-common/src/families/iota/api/index.ts:173-196 | an incoming value is what the outputs pay the address; an outgoing value plus that is the total of the checked outputs |
| IndexerApi.RecipientsAre | libs/ledger-live-common/src/families/iota/api/index.ts:173-196 | the recipients are exactly the recipients of the checked outputs, at most one per output, and one per output when all are checked |
| IndexerApi.GetOperations | libs/ledger-live-common/src/families/iota/api/index.ts:108-128 | fetching the transactions and translating them gives the history specification |
| IndexerApi.OperationsKept | libs/ledger-live-common/src/families/iota/api/index.ts:108-128 | the history has at most one operation per output id, and holds exactly the operations some block translates to |
| IndexerApi.FetchBalance | libs/ledger-live-common/src/families/iota/api/index.ts:44-54 | the loop sums the amounts of the unspent outputs |
| IndexerApi.BalanceSplits | libs/ledger-live-common/src/families/iota/api/index.ts:44-54 | the unspent balance plus the spent amounts is the total; with nothing spent, the balance is the total |
| IndexerApi.GetAccount | libs/ledger-live-common/src/families/iota/api/index.ts:97-106 | the balance and the spendable balance are both the unspent balance, the block height is 10, and no nonce or locked balance is reported |
| MaxSpendable.EstimateMaxSpendable | libs/ledger-live-common/src/families/iota/js-estimateMaxSpendable.ts:5-19 | the estimate is the account's whole balance |
| MaxSpendable.EstimateIgnoresContext | libs/ledger-live-common/src/families/iota/js-estimateMaxSpendable.ts:5-19 | neither the parent account nor the transaction affects the estimate |
| IotaUtils.GetNetworkId | libs/ledger-live-common/src/families/iota/utils.ts:23-32 | a network id exists iff the currency is shimmer or iota; any other throws "Invalid currency id in transaction" |
| IotaUtils.NetworkIds | libs/ledger-live-common/src/families/iota/utils.ts:23-32 | shimmer and iota map to their published ids, which differ and are decimal numerals |
| IotaUtils.NetworkIdsHaveAppModes | libs/ledger-live-common/src/families/iota/utils.ts:23-32 | every currency with a network id has a device app mode, and shimmer_testnet has a mode but no network id |
| IotaUtils.CalculateAmount | libs/ledger-live-common/src/families/iota/utils.ts:6-19 | "send max" moves the whole balance; otherwise the transaction's amount |
| TransactionStatus.ErrorRecord | libs/ledger-live-common/src/families/iota/js-getTransactionStatus.ts:37-43 | the error record holds a recipient entry iff there is a recipient error, an amount entry iff there is an amount error, and nothing else |
| TransactionStatus.GetTransactionStatus | libs/ledger-live-common/src/families/iota/js-getTransactionStatus.ts:12-44 | the checks give the status specification |
| TransactionStatus.StatusOf | libs/ledger-live-common/src/families/iota/js-getTransactionStatus.ts:12-44 | the status specification; stated by ErrorRecord, RecipientChecks, AmountChecks and StatusTotals |
| TransactionStatus.RecipientChecks | libs/ledger-live-common/src/families/iota/js-getTransactionStatus.ts:18-24 | an empty recipient is required, and a recipient equal to the fresh address is refused |
| TransactionStatus.AmountChecks | libs/ledger-live-common/src/families/iota/js-getTransactionStatus.ts:26-35 | a zero amount without "send max" is required; any other amount is refused iff it is not "send max" and exceeds the balance; "send max" moves the whole balance |
| TransactionStatus.StatusTotals | libs/ledger-live-common/src/families/iota/js-getTransactionStatus.ts:37-43 | the fee is 0, nothing is warned about, and the amount and the total spent are the amount moved |
| TransactionStatus.SameAddressExample | libs/ledger-live-common/src/families/iota/bridge.integration.test.ts:52-65 | on the test account, an amount of 1000000 to its own fresh address gives only the recipient error |
| TransactionStatus.AmountRequiredExample | libs/ledger-live-common/src/families/iota/bridge.integration.test.ts:67-80 | on the test account, an amount of 0 to its own fresh address gives the recipient error and the amount-required error |
| TransactionStatus.NotEnoughBalanceExample | libs/ledger-live-common/src/families/iota/bridge.integration.test.ts:82-95 | on the test account, 10^15 to its own fresh address gives the recipient error and the not-enough-balance error naming the balance 2111000 |
| IotaLogic.ComputeMinimumIotaBalance | libs/ledger-live-common/src/families/iota/logic.ts:40-48 | the minimum is never below 0.1 IOTA for a non-negative number of assets |
| IotaLogic.MinimumBalanceSteps | libs/ledger-live-common/src/families/iota/logic.ts:40-48 | with no assets and no opt-in the minimum is 0.1 IOTA, and each further asset or an opt-in adds exactly 0.1 IOTA |
| IotaLogic.ComputeIotaMaxSpendable | libs/ledger-live-common/src/families/iota/logic.ts:26-38 | the spendable amount is the balance less the minimum, clamped at zero, and never above the balance |
| IotaLogic.MaxSpendableMonotone | libs/ledger-live-common/src/families/iota/logic.ts:26-48 | an opt-in never leaves more to spend, and neither do more assets |
| IotaLogic.IsAmountValid | libs/ledger-live-common/src/families/iota/logic.ts:16-24 | an amount is valid iff the recipient already holds funds or the amount reaches the minimum balance |
| JsTransaction.CreateTransaction | libs/ledger-live-common/src/families/iota/js-transaction.ts:11-18 | a new transaction is of family iota, amount 0, with no recipient and no "send max" |
| JsTransaction.UpdateTransaction | libs/ledger-live-common/src/families/iota/js-transaction.ts:25-31 | each field the patch carries replaces the transaction's field, and every other field is kept |
| JsTransaction.UpdateIdempotent | libs/ledger-live-common/src/families/iota/js-transaction.ts:25-31 | applying a patch twice is applying it once, and the empty patch changes nothing |
| JsTransaction.PrepareTransaction | libs/ledger-live-common/src/families/iota/js-transaction.ts:42-55 | preparing always throws the JSON text of the transaction |
| Tokens.AddPrefixToken | libs/ledger-live-common/src/families/iota/tokens.ts:1 | the token id is "iota/asa/" followed by the id |
| Tokens.ExtractTokenId | libs/ledger-live-common/src/families/iota/tokens.ts:3-5 | there is a token id iff the id has at least three "/"-separated pieces, and it is the third |
| Tokens.ExtractPrefixed | libs/ledger-live-common/src/families/iota/tokens.ts:1-5 | extracting from a prefixed id gives the id's part before its first "/", and the id itself when it has none |
| Tokens.ExtractShort | libs/ledger-live-common/src/families/iota/tokens.ts:3-5 | "iota/asa" has no token id, and "iota/asa/7/x" has the id "7" |
| AccountExtra.FromOperationExtraRaw | libs/ledger-live-common/src/families/iota/account.ts:53-61 | extras without truthy rewards are kept; otherwise the rewards become a BigNumber and every other entry is kept |
| AccountExtra.ToOperationExtraRaw | libs/ledger-live-common/src/families/iota/account.ts:62-70 | extras without truthy rewards are kept; otherwise the rewards become their text and every other entry is kept |
| AccountExtra.ExtraRoundTrip | libs/ledger-live-common/src/families/iota/account.ts:53-70 | storing then restoring an operation's integer rewards gives the extras back |
| AccountExtra.FormatOperationSpecifics | libs/ledger-live-common/src/families/iota/account.ts:9-25 | the text is empty iff there are no truthy rewards; without a unit it is " REWARDS : " followed by the rewards as a template literal writes them; only the text with a unit is left unmodelled |
| AccountExtra.RewardsTextReadsBack | libs/ledger-live-common/src/families/iota/account.ts:13-22 | without a unit, BigNumber rewards can be parsed back from the text after the label |
| ResourcesSerialization.ToIotaResourcesRaw | libs/ledger-live-common/src/families/iota/serialization.ts:3-11 | the asset count is kept and finite rewards are stored as text that parses back to them |
| ResourcesSerialization.FromIotaResourcesRaw | libs/ledger-live-common/src/families/iota/serialization.ts:12-20 | the asset count is kept and the rewards are finite iff their text parses, with its value |
| ResourcesSerialization.ResourcesRoundTrip | libs/ledger-live-common/src/families/iota/serialization.ts:3-20 | storing then loading resources gives them back |
| ResourcesSerialization.RawRoundTrip | libs/ledger-live-common/src/families/iota/serialization.ts:3-20 | loading then storing a canonical stored form gives it back |
| WalletTypes.BigFromString | libs/ledger-live-common/src/families/iota/account.ts:53-61 | `new BigNumber(s)` is finite iff s is an integer numeral, and it renders a canonical numeral back |
| WalletTypes.BigStringRoundTrip | libs/ledger-live-common/src/families/iota/account.ts:53-70 | writing a BigNumber out and reading it back gives it back |
| Text.SameLengthOrder | libs/ledger-live-common/src/families/iota/js-signOperation.ts:309 | for decimal numerals of the same length, string order is numeric order |

## Left out

- Networking, the node client and the indexer. Their answers are parameters: the pages of output ids for `calculateInputs`, and lookups by id for `fetchAllTransactions`, `client.output` and the block fetches. `fetchAllTransactions` is modelled as those lookups.
- InputSelection.CalculateInputs: the indexer's answers are a finite list of pages. Running out of them ends in `OutOfPages`, which stands for the source querying forever.
- Bech32 encoding, `uint8ArrayToAddress`, Blake2b, `serializeOutput`, `serializeTransactionEssence`, `serializeInput`, UTF-8 hex conversion and `JSON.stringify` are library code. They are parameters (the `Codec` records and function arguments).
- The `./constants` module of `hw-app-iota` is not part of this model. Its app modes, Empty data type and flow numbers are a `Constants` record. The instruction codes, class byte and timeouts are taken to be those the Shimmer client declares.
- The transport's packing of a header whose p1 is an object: `_signSingle(input)` in the legacy flow is modelled as p1 0. The transport's use of `.buffer` of a typed array is not modelled.
- The frame dump of `_sendCommand` (hw-app-iota/index.ts:507-516) is debug output and is not modelled.
- Calls that are not awaited are modelled in the order they are issued, and their answers are dropped. Concurrency between them is not modelled.
- A `struct` field past the end of a device answer reads as 0.
- `_getData` with a block size of 0 and a non-zero length loops forever in the source unless the device refuses a read. The model sends the first read, throws its device error when it is refused, and otherwise stops after it with `Err(Diverges)` instead of reading for ever.
- Shimmer `_writeDataBuffer`, `_clearDataBuffer`, `_userConfirmEssence`, `_reset` and the show-flow methods mirror the IOTA ones already modelled. They are not modelled again for the Shimmer client.
- ShimmerHw.AddressOutcome: an `undefined` options argument is modelled as the error V8 raises on reading `display`.
- JsTransaction.UpdateTransaction: a patch property that is present with the value `undefined` is modelled as absent, so the old field is kept. In `{...transaction, ...patch}` such a property overwrites the field with `undefined`. For example `{useAllAmount: undefined}` then makes the `useAllAmount === true` test of `calculateAmount` false. A transaction field that can be `undefined` is not modelled.
- Amounts are unbounded naturals. A BigNumber in exponent notation (at 10^21 and above) is not modelled.
- WalletTypes.BigFromString: reads decimal integer notation only; exponent and fraction notations give NaN here.
- The JavaScript numbers in `txToOp` and the legacy value loop (`+amount`, floating point, NaN) are modelled as naturals.
- `localeCompare` on serialised hex is modelled as code-unit order; on lower-case hex digits the two agree.
- The Chrysalis iota.js constants of `signOperation.ts` and the Stardust ones (output, unlock and address types, indexation key bounds) are written with their published values.
- The legacy `essenceHash` (Blake2b) is computed and never used, so it is not modelled.
- `inputs` and `outputs` are never null here; the source's null checks reduce to the emptiness checks.
- `new Date()` is the `now` parameter, and the node's answer to `messageSubmit` is the `submitted` parameter.
- The `withDevice` observable is modelled as an `Emission` record: the events in order and the error it ends with.
- The Stardust `signOperation` events are not modelled. Only the signed operation it reports is modelled (StardustPayload.SignedOperationOf).
- Native tokens and output features are not modelled.
- `recipientHasAsset` is not modelled: it reads `assets` from the account record the indexer returns, which the `getAccount` of this model does not carry. The rewards text that `formatOperationSpecifics` builds with a unit, and `formatAccountSpecifics`, are not modelled either, because both go through `formatCurrencyUnit`, which is not part of this model.
- `getErrorMessage`, the mock data, the UI, the tests, `js-synchronisation.ts`, `js-broadcast.ts`, `transaction.ts` and the `hw-getAddress.ts` files are not part of this model.
