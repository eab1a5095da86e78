# outscript in Dafny

A model of the outscript library's codecs, message compilers and signing state machines, with
proofs. Loops and objects of the library are methods and classes here, proved against
specification functions; the promises of the library are lemmas about those functions. To check
everything: `dafny verify dfyconfig.toml`.

What is modelled, by component:

- **Bech32, regrouping, Cardano addresses** (`Bech32*`, `Regroup`, `CardanoAddress`): the
  checksum as a linear register over GF(2), the 8/5-bit regrouper, CIP-19 addresses, a worked example.
- **Bitcoin transactions** (`Btc*`, `PushData`, `EcdsaSig`, `ScriptFormats`, `ScriptBytes`, `ScriptCache`):
  the sticky-error reader, the two wire forms, sizes, the script generator with its cache, the
  signing loop with cached preimages and scratch copy, the signature extractor and the prefill.
  `BtcCanonical` and `BtcReplay` join reading and writing; `BtcMessages` states the signed messages
  place by place; `BtcSpend` ties what signing presents to the generated output scripts.
- **Keys** (`Schnorr`, `CardanoScalar`, `CardanoKeys`, `CardanoChild`, `CardanoIcarus`,
  `CardanoSign`): BIP-341
  tweak and BIP-340 signing, BIP32-Ed25519 derivation, Ed25519 signing with unclamped scalars.
- **Solana** (`SolanaCodec`, `SolanaWire`, `SolanaTransaction`, `KeyOrder`, `SolanaCompile`,
  `SolanaLayout`, `SolanaDelivery`): the compact-u16 codec, legacy and version 0 messages, the account table
  compiler, and the way from compiling to verifying at the other end.
- **Rewards, ABI, Tron** (`Rewards`, `AbiLayout`, `AbiEncoder`, `TronRaw`, `TronLayout`).

`Outcome`, `Arith` and `Bytes` hold what the others share.

Hash functions, HMAC, PBKDF2, ECDSA signers and Ed25519 primitives are parameters. Each
prime-order group is the integers modulo its order: a point is its discrete logarithm, seen from
outside through `x`, `odd`, `lift`, `encode` or `decode` functions with the facts stated in a
predicate `Sound`; `Schnorr.CurveExists` and `CardanoSign.PrimitivesExist` show these can be met.
Signers as some lemmas ask for them exist: `BtcPrefill.LongSignersExist`, `BtcRecover.WillingSignersExist`.
Signers may answer differently each time they are called. Machine integers are written out where
they can wrap (64-bit block counts and the signed conversion in the rewards, 16-bit carries,
8-bit Solana header counts, the low flag byte of signatures).

Where the code does less than one might expect, the exact condition is proved:

- A Bitcoin transaction without inputs never round-trips; one with inputs does exactly within the
  reader's limits.
- A Bitcoin transaction that was read is written to the bytes it was read from exactly when its
  counts are in their shortest spelling and the segwit form has flag 1 and a witness.
- P2PKH digests are recovered exactly when the input carried no witness and the flag is 1, since
  only the low byte of the flag is stored.
- The halving sum wraps at height 2^64 - 1; the Dogecoin sum goes wrong from 2^63 + 599999 on.
- With 256 Solana signers, a number that does compile, the header asks for none and roles are lost.
  A compiled legacy transaction is read back from the wire exactly with at most 127 signers, or with
  256 that are all writable; a version 0 one exactly with at most 255, or with 256 that are all
  writable.
- Unmarshalling a legacy Solana transaction into an object that holds a version 0 message leaves the
  latter in force.
- The documentation of `NewSolanaTxV0` says accounts reached through lookup tables are not in the
  static list (solanatx.go:262-265); the code keeps every account static, and so does the model.
- A `bytes4` parameter of the ABI encoder is written as a number, right-aligned, where the ABI
  specification left-aligns it: the two agree exactly for zero. For `bytes32` they always agree.
- The automatic p2wsh prefill is too small exactly when the detected script has an uncompressed key
  and the signature with its flag is longer than 64 bytes (a bare key) or 40 bytes (a key hash).

## Model

| member | source | states |
|---|---|---|
| `Bech32Algebra.StepLinear` | cardano.go:258-271 | one checksum step is linear over GF(2): the step of a sum is the sum of the steps |
| `Bech32Algebra.RunLinear` | cardano.go:258-271 | the checksum register is linear in state and symbols at every length |
| `Bech32Algebra.StepInjective` | cardano.go:258-271 | with a zero symbol only the zero register steps to zero, so the step is injective on the 30-bit state |
| `Bech32Algebra.BurstChangesRegister` | cardano.go:258-271 | two different symbol strings that differ only inside six consecutive places never reach the same register, at any length |
| `Bech32Word.Polymod` | cardano.go:258-271 | the loop on the 32-bit word computes the same remainder as the register algebra |
| `Bech32.CreateChecksum` | cardano.go:285-293 | the loops over expansion, data and six zeros give the specified six symbols |
| `Bech32.ChecksumUnique` | cardano.go:285-293 | for every prefix and data, six symbols pass the check if and only if they are the created checksum |
| `Bech32.Encode` | cardano.go:295-304 | the character loop writes prefix, separator, data and checksum as the specification function says |
| `Bech32.Decode` | cardano.go:307-330 | the checks and loops decide and return what the specification decoder does, error by error |
| `Bech32.DecodeInvertsEncode` | cardano.go:295-330 | decode(encode(hrp, data)) returns both, for data of every length, if and only if the prefix is non-empty and has no upper-case letter |
| `Bech32.EncodeInvertsDecode` | cardano.go:307-330 | every accepted text is, in lower case, exactly the encoding of what is returned |
| `Bech32.DecodeAcceptsExactly` | cardano.go:307-330 | a text is accepted if and only if it is in one letter case and is the encoding of something with a non-empty lower-case prefix |
| `Bech32.BurstBreaksChecksum` | cardano.go:258-271 | changing symbols inside any six consecutive places of a checksummed string always breaks the checksum |
| `Bech32.BurstIsRejected` | cardano.go:307-330 | an accepted text, lower-case or upper-case, so changed after its separator is rejected: with the checksum error if it is still in one letter case, else with the mixed-case error |
| `Bech32Example.PrefixSymbols` | cardano.go:273-282 | the checksum is fed the high three bits of every prefix character, a zero and the low five bits, in this order |
| `Bech32Example.GeneratorWords` | cardano.go:258-271 | a symbol that falls out with one bit set adds exactly the generator word of BIP-173 for that bit |
| `Bech32Example.CharacterSet` | cardano.go:295-304 | symbol v is written as character v of qpzry9x8gf2tvdw0s3jn54khce6mua7l |
| `Bech32Example.EncodedA` | cardano.go:285-304 | the prefix a without data is written a12uel5l, the shortest test vector of BIP-173, worked out register by register |
| `Regroup.ConvertBits` | cardano.go:209-234 | the masked-accumulator loops compute the regrouping of the bit string, padding and rejection included, with no 32-bit overflow |
| `Regroup.UnpadInvertsPad` | cardano.go:209-234 | padding to narrower groups and unpadding gives the data back, for all widths t <= f |
| `Regroup.PadInvertsUnpad` | cardano.go:209-234 | every accepted unpadding comes from padding its result: 8-to-5 and 5-to-8 are inverse bijections onto the accepted strings |
| `CardanoAddress.EncodeAddress` | cardano.go:82-92 | prefix choice, regrouping and encoding compose to the specified address or error |
| `CardanoAddress.ParseAddress` | cardano.go:143-204 | the parser's checks, in order, decide as the specification does |
| `CardanoAddress.CheckedExactly` | cardano.go:160-203 | prefix and header cross-checks pass if and only if the payload is well formed and the prefix is the one its header calls for (CIP-19) |
| `CardanoAddress.PrefixesAre` | cardano.go:66-80 | the prefix of a payload by its header byte: stake_test for e0, stake for e1 to ef, otherwise addr_test for network 0 and addr for the others |
| `CardanoAddress.NetworksAre` | cardano.go:53-62 | the network names for 0 and for 1, and the refusal of all others |
| `CardanoAddress.ParseExactly` | cardano.go:82-204 | a text parses to a payload if and only if the payload is well formed and the text, in one letter case, is its encoding |
| `CardanoAddress.ReencodeParsed` | cardano.go:240-252 | re-rendering any accepted address with its stored flag gives the address back in lower case |
| `CardanoAddress.EnterpriseParses` | cardano.go:96-106 | every built enterprise address parses back to its header, hash and network |
| `CardanoAddress.BaseParses` | cardano.go:110-123 | every built base address parses back to its header, both hashes and network |
| `CardanoAddress.RewardParses` | cardano.go:127-137 | every built reward address parses back to its header, hash and network |
| `BtcReader.ReadHelper.ReadFull` | util.go:57-67 | a read takes exactly the bytes asked for; a short stream is emptied and fails; once an error is stored nothing is read; the count stays the bytes taken |
| `BtcReader.ReadHelper.ReadVarBuf` | util.go:80-96 | length-prefixed reading agrees with the parser, including the size limit, and keeps the byte count right after failures |
| `BtcReader.VarIntReadFrom` | btcvarint.go:42-60 | reading a variable-length integer agrees with the parser and reports the bytes consumed |
| `BtcReader.InputReadFrom` | btctx.go:664-672 | reading one input agrees with the parser of inputs and reports the bytes consumed |
| `BtcReader.OutputReadFrom` | btctx.go:699-704 | reading one output agrees with the parser of outputs and reports the bytes consumed |
| `BtcTransaction.BtcTx.ExportBytes` | btctx.go:476-501 | the append loops write exactly the legacy or segwit form of the object's value (BIP-144) |
| `BtcTransaction.BtcTx.Marshal` | btctx.go:378-395 | the segwit form is written if and only if some input has a witness |
| `BtcTransaction.BtcTx.ReadFrom` | btctx.go:517-564 | the object ends up with the parsed transaction, the reported count is the bytes taken, and it fails exactly when the parser does |
| `BtcTransaction.BtcTx.Dup` | btctx.go:421-435 | the copy is fresh and has the same value |
| `BtcTransaction.BtcTx.ClearInputs` | btctx.go:438-443 | only scripts and witnesses are removed |
| `BtcTransaction.BtcTx.ComputeSize` | btctx.go:446-472 | the arithmetic size is ceil((3 * legacy bytes + witness-form bytes) / 4) of the real serialisations, or the exact length without witnesses (BIP-141) |
| `BtcMessages.TxLayout` | btctx.go:476-501 | both wire forms piece by piece: version, marker and flag, counts, every input with its id back to front, every output, every witness stack, lock time |
| `BtcMessages.VarIntIs` | btcvarint.go:13-25 | the four forms of the variable-length integer with their first bytes and ranges |
| `Bytes.LEAt` | btctx.go:476-501 | byte i of a little-endian number is its i-th digit in base 256 |
| `BtcRoundTrip.ParseWithInputs` | btctx.go:476-564 | with at least one input, parsing the serialisation followed by anything gives the transaction back and stops at its end, if and only if it is within the reader's limits |
| `BtcRoundTrip.RoundTripsExactly` | btctx.go:476-564 | a transaction round-trips with any trailing bytes if and only if it has an input and is within the limits (inputs, outputs, witness items, buffer sizes) |
| `BtcRoundTrip.LimitsAre` | btctx.go:517-564 | the limits in figures: 10,000 inputs and witness items, 65,536 outputs, 100,000 bytes a string |
| `BtcRoundTrip.NoInputsNeverRoundTrips` | btctx.go:523-530 | without inputs the legacy form is read as segwit, and no such transaction round-trips |
| `BtcCanonical.RewritesExactly` | btctx.go:476-564 | reading any bytes and writing the transaction again gives exactly the bytes that were read if and only if every count and length has its shortest spelling and the segwit form, if used, has flag 1 and a transaction with a witness; it never gives more bytes |
| `BtcCanonical.AnyFlagIsRead` | btctx.go:523-530 | the segwit form with any flag byte, with or without a witness, is read as the transaction; with another flag or no witness these are not the bytes it is written to |
| `BtcCanonical.LongCountIsRead` | btcvarint.go:42-60 | an input count spelled in three bytes instead of one is read as the transaction, whose own form is two bytes shorter |
| `BtcReplay.WriteThenRead` | btctx.go:378-564 | an object that reads the bytes of another off a longer stream holds the same transaction (outputs renumbered) and has used exactly those bytes, if and only if there is an input and all is within the reader's limits |
| `BtcReplay.ReadThenWrite` | btctx.go:378-564 | an object read off a stream and written again is no longer than what was read, and gives the same bytes if and only if the counts were short and the segwit form was called for |
| `PushData.PushRoundTripsExactly` | pushbytes.go:30-101 | a push with any suffix is read back if and only if it is shorter than 2^32 bytes |
| `PushData.ParseOfPushes` | pushbytes.go:53-101 | any list of pushes is parsed back into its items |
| `PushData.PushIs` | pushbytes.go:30-49 | the four forms of a push with their opcodes and ranges |
| `EcdsaSig.NormalizeByValue` | btctxparse.go:293-302 | normalisation keeps the number and fails if and only if it needs more bytes |
| `EcdsaSig.ParseOfDer` | btctxparse.go:244-289 | every DER signature with any flag byte is read back as its 32-byte r and s |
| `BtcInputSig.ExtractP2pkh` | btctxparse.go:82-103 | a P2PKH script gives back the signature and the key |
| `BtcInputSig.ExtractP2wpkh` | btctxparse.go:49-79 | a P2WPKH witness gives back the signature and the key |
| `BtcInputSig.ExtractKeyPath` | btctxparse.go:116-133 | a 64-byte taproot witness is a key-path signature with the default flag |
| `BtcInputSig.ExtractKeyPathFlag` | btctxparse.go:116-133 | a 65-byte taproot witness is a key-path signature whose last byte is the flag |
| `BtcInputSig.ExtractScriptPath` | btctxparse.go:104-160 | a signature, a leaf that pushes a key and checks it, and a control block of any depth give signature, key, leaf and control block of a script-path spend |
| `BtcInputSig.ParseMultisigLoop` | btctxparse.go:167-211 | the push and signature loops compute the specified parse |
| `BtcInputSig.ExtractMultisig` | btctxparse.go:167-242 | an M-of-N spend with 1 <= N <= 16 gives back every signature in order, the redeem script and all N keys |
| `ScriptFormats.FormatsAreAcyclic` | format.go:11-47 | every format looks up only names of lower rank, so no lookup chain is circular |
| `ScriptFormats.ScriptLengths` | format.go:11-47 | the four single-key scripts of a secp256k1 key exist and have 25, 25, 35 and 67 bytes |
| `ScriptBytes.KeyScripts` | format.go:11-40 | all eighteen scripts of a secp256k1 key, byte for byte: which key form is hashed, with what, behind which opcodes and length bytes, and for the ten nested ones the hash of the script inside |
| `ScriptBytes.AccountScripts` | format.go:37-46 | the formats of an Ed25519 key, byte for byte |
| `BtcSpend.WitnessKeyOpens` | btctx.go:204-248 | what P2WPKH and P2SH-P2WPKH signing presents is what the generated output scripts commit to: the key in the witness hashes to bytes 2 to 22 of the program, the pushed redeem script is the program, and its hash stands in the P2SH script |
| `BtcSpend.KeyHashOpens` | btctx.go:133-176 | the key pushed by P2PKH signing, compressed or not, hashes to the 20 bytes in the generated output script |
| `BtcSpend.PlainKeyOpens` | btctx.go:120-132 | the P2PK output script holds the compressed key and is the code of the legacy message that is signed |
| `BtcSpend.WitnessScriptOpens` | btctx.go:251-313 | the last witness item of P2WSH signing, named or detected, is a single-key script and its SHA-256 is the one in the generated output script |
| `ScriptCache.Script.Generate` | script.go:69-102 | whatever is cached, the result is uncached evaluation (whose bytes `ScriptBytes` states), the cache stays correct, and no entry is lost |
| `ScriptCache.Script.PieceBytes` | insertable.go:31-33 | evaluating a piece through the cache equals pure evaluation |
| `ScriptCache.Script.GenerateMany` | script.go:69-102 | any sequence of calls, failing ones included, is answered as if there were no cache |
| `BtcSighash.Preimage` | btctx.go:354-375 | prefix and suffix are the parts of the BIP-143 message (whose bytes `BtcMessages` states) for the transaction's value |
| `BtcSighash.TaprootParts` | btctx_p2tr.go:64-114 | the running hashes are the BIP-341 parts, with the same refusals |
| `BtcSighash.MessagesIgnoreScripts` | btctx.go:354-375 | segwit and taproot parts depend on nothing that signing fills in |
| `BtcSighash.LegacyIgnoresScripts` | btctxparse.go:373-380 | the legacy message depends on nothing that signing fills in but the one script put there |
| `BtcMessages.SegwitLayout` | btctx.go:354-375 | the segwit message place by place: version, double hash of all outpoints, double hash of all sequences, this outpoint, pushed code, amount, this sequence, double hash of all outputs, lock time, flag (BIP-143) |
| `BtcMessages.LegacyLayout` | btctxparse.go:373-380 | the legacy message piece by piece: the transaction with all scripts out but the one signed, and the flag in four bytes |
| `BtcMessages.KeyPathLayout` | btctx_p2tr.go:179-200 | the 175 bytes of the key-path message: epoch, type, version, lock time, five hashes of strings given piece by piece, spend type 0, input index (BIP-341) |
| `BtcMessages.ScriptPathLayout` | btctx_p2tr.go:148-174 | the 212 bytes of the script-path message: the same front, spend type 2, input index, leaf hash under the TapLeaf tag, key version 0, code separator ffffffff (BIP-342) |
| `BtcMessages.MessagesApart` | btctx_p2tr.go:148-200 | two taproot messages of one transaction are equal if and only if they are for the same input, on either path, and the two paths never share one |
| `BtcMessages.RecomputedSighash` | btctxparse.go:309-335 | what the extractor recomputes before taproot is the double hash of the legacy or BIP-143 bytes with flag 1 |
| `BtcMessages.RecomputedTaproot` | btctx_p2tr.go:121-142 | what it recomputes for taproot is the TapSighash-tagged hash of the key-path or script-path bytes |
| `BtcSign.Sign` | btctx.go:88-202 | with cached parts, a scratch copy and inputs overwritten on the way, every input becomes what signing the original transaction gives it; on failure the earlier inputs are signed, the rest is untouched, and the error is the failing input's |
| `BtcSign.FlagsRefused` | btctx.go:103-118 | outside taproot a flag of 0 stands for 1, and signing refuses a flag if and only if its low byte is none of 01, 21, 41, 61 |
| `BtcSign.TaprootFlagsRefused` | btctx_p2tr.go:209-213 | taproot signing refuses a flag if and only if it is neither 0 nor 1 |
| `BtcMessages.SignedKeyHash` | btctx.go:204-248 | at every P2WPKH, P2SH-P2WPKH or fork-id input the signer is handed the double hash of the BIP-143 bytes with the key's P2PKH code, and its answer with the flag byte is what the input holds |
| `BtcMessages.SignedWitnessScript` | btctx.go:251-313 | at every P2WSH input the signer is handed the double hash of the BIP-143 bytes whose code is the script that ends the witness |
| `BtcMessages.SignedLegacy` | btctx.go:120-176 | at every legacy input the signer is handed the double hash of the legacy bytes whose code is the output script of the key |
| `BtcMessages.SignedTaproot` | btctx_p2tr.go:209-232 | at every P2TR input the signer is handed the TapSighash-tagged hash of the key-path bytes of that input |
| `BtcSign.SignedKeepsSkeleton` | btctx.go:88-202 | at every point of the loop the transaction has the skeleton it started with |
| `BtcSign.DetectLoop` | btctx.go:319-349 | the candidate loop finds the first single-key script that the input asks for |
| `BtcRecover.FoundForKeyHash` | btctxparse.go:39-46 | after signing, the extractor finds the P2PKH signature if and only if the input had no witness |
| `BtcRecover.KeyHashRecoversExactly` | btctxparse.go:309-335 | for a P2PKH or P2PUKH input the message recomputed from the final transaction is the one signed if and only if the input had no witness before and the flag is 1; then the recomputed sighash is exactly the digest that was signed |
| `BtcRecover.SomeDigestsAreLost` | btctxparse.go:309-335 | every key that always signs, on any one-input transaction, loses the digest with flag 0x101, with flag 0x41, and with flag 1 if the input carried a witness: signing succeeds and the recomputed message is not the signed one |
| `BtcRecover.FoundForWitnessKey` | btctxparse.go:49-79 | after signing, the extractor finds the P2WPKH signature, key and flag byte |
| `BtcRecover.WitnessKeyRecoversExactly` | btctxparse.go:309-335 | for a P2WPKH input the recomputed message is the one signed if and only if the flag is 1; then the recomputed sighash is exactly the digest that was signed |
| `BtcRecover.TaprootRecovers` | btctx_p2tr.go:121-142 | for a P2TR input the extracted signature is the produced one and the recomputed BIP-341 digest is the one signed |
| `BtcTaprootSpend.SignedSpendVerifies` | btctx_p2tr.go:121-275 | after signing everything with the built-in taproot signer, the signature extracted from the final transaction verifies under the tweaked output key on the digest recomputed from that transaction |
| `BtcTaprootSpend.TaprootOpens` | btctx_p2tr.go:209-275 | the signature in the final transaction verifies, on the tagged hash of the 175 key-path bytes, under the very x-only key that the generated P2TR output script holds |
| `BtcPrefill.PrefillInput` | btctx.go:623-661 | one input is replaced by its prefilled form and nothing else changes; unsupported schemes change nothing |
| `BtcPrefill.NeverUnderestimates` | btctx.go:598-661 | when every input is p2tr, or has a signature of at most 72 bytes with flag and either an explicit scheme or an automatic p2wsh whose detected script and actual signature length the p2pkh filler suffices for, the measured prefilled size is at least the size of the signed transaction |
| `BtcPrefill.ExactAtFullLength` | btctx.go:598-661 | with explicit schemes and signatures of exactly 72 bytes with flag, or taproot ones, the measured prefilled size is exactly the size of the signed transaction |
| `BtcPrefill.TaprootIsExact` | btctx.go:617-619 | the taproot prefill has exactly the size of the signed input |
| `BtcPrefill.AutoScriptHashExactly` | btctx.go:646-649 | for the automatic p2wsh scheme and every signature of at most 72 bytes the prefill covers the signed input if and only if the detected script is p2pkh or p2pk, or p2puk with a signature of at most 64 bytes, or p2pukh with at most 40 |
| `BtcPrefill.SomeAreUnderestimated` | btctx.go:646-649 | for every hash function and every signer with signatures of 68 to 72 bytes with flag: a one-input transaction whose automatic p2wsh script hash is that of the bare uncompressed key, and of no other candidate, signs, and its measured prefilled size is below its signed size |
| `Schnorr.Bip340Sign` | p2tr.go:127-195 | the in-place signer computes the specified signature, and every signature it returns verifies: s*G - e*P is the even point with x coordinate r, where e is the challenge hash of r, key and message, written out (BIP-340) |
| `Schnorr.AnyNonceVerifies` | p2tr.go:138-194 | for every key, nonce and message, and all parities of P and R, the signature satisfies the BIP-340 verification equation |
| `Schnorr.NonceIsHashed` | p2tr.go:138-170 | the first half of every signature is the x coordinate of the point whose scalar is the nonce hash of masked secret, key and message, the mask being the hash of the auxiliary bytes |
| `Schnorr.OutputKeyIs` | p2tr.go:59-83 | the output key is the even point of the internal key plus the TapTweak hash of its x coordinate |
| `Schnorr.TweakedScalarHasOutputKey` | btctx_p2tr.go:246-270 | the tweaked private scalar has the x coordinate of the tweaked public key, in all parity cases, and is zero exactly when the output point is infinity |
| `Schnorr.KeySpendSign` | btctx_p2tr.go:237-275 | the in-place tweak and signing compute the specified key-path signature or error, and every signature verifies under the x-only key of the public tweak |
| `Schnorr.KeySpendVerifies` | btctx_p2tr.go:237-275 | a key-path signature from any internal key verifies under the x-only key of the public tweak (BIP-340, BIP-341) |
| `Schnorr.KeySpendFails` | btctx_p2tr.go:237-275 | on a 32-byte digest signing fails with each of its four errors exactly for its own cause: a zero key, an oversized tweak, an output point at infinity, a zero nonce |
| `CardanoScalar.Add28Mul8Bytes` | cardano_derive.go:197-211 | the carry loops compute (x + 8 * (y mod 2^224)) mod 2^256 |
| `CardanoScalar.NoOverflow` | cardano_derive.go:201-207 | no 16-bit column sum overflows |
| `CardanoScalar.Add256Bytes` | cardano_derive.go:214-223 | the carry loop computes (x + y) mod 2^256 |
| `CardanoKeys.XprvRoundTrip` | cardano_extkey.go:59-98 | an xprv is accepted if and only if it has 64 or 96 bytes, and layout round-trips both ways |
| `CardanoKeys.DeriveChildStep` | cardano_derive.go:44-83 | the private step, with its byte loops, is the specified derivation |
| `CardanoKeys.DerivePublicChildStep` | cardano_derive.go:147-175 | the public step is the specified derivation, with hardened and invalid-point errors |
| `CardanoKeys.DerivePathLoop` | cardano_derive.go:87-97 | the loop follows the path step by step and stops at the first error |
| `CardanoKeys.DerivePublicPathLoop` | cardano_derive.go:178-188 | the loop follows the public path step by step and stops at the first error |
| `CardanoKeys.WatchOnlyChildExactly` | cardano_derive.go:147-175 | a soft child derived publicly is the neutered private child if and only if the scalar addition does not wrap 2^256 |
| `CardanoKeys.WatchOnlyPath` | cardano_derive.go:178-188 | for every soft path without wrap, deriving then neutering equals neutering then deriving, key and chain code |
| `CardanoKeys.HardenedNeedsPrivate` | cardano_derive.go:147-150 | any hardened index anywhere in a path makes public derivation fail |
| `CardanoChild.HardenedChild` | cardano_derive.go:44-83 | a hardened child, with the HMAC inputs written out as tag, scalar, nonce and index: scalar, nonce, chain code and public key of the child as numbers |
| `CardanoChild.SoftChild` | cardano_derive.go:44-83 | the same for a soft child, whose HMAC inputs are tag, public key and index |
| `CardanoChild.PublicChildIs` | cardano_derive.go:147-175 | a public child: the point moves by 8 times the low 28 bytes of the HMAC output, and the chain code is the upper half of the other one |
| `CardanoChild.HardenedInputsApart` | cardano_derive.go:53-60 | two hardened derivations share an HMAC input if and only if scalar, nonce and index agree |
| `CardanoChild.SoftInputsApart` | cardano_derive.go:61-69 | two soft derivations share an HMAC input if and only if public key and index agree |
| `CardanoChild.KindsApart` | cardano_derive.go:53-68 | a hardened HMAC input is never a soft one |
| `CardanoIcarus.MasterInRange` | cardano_derive.go:27-38 | the clamped master scalar is a multiple of 8 in the force-3rd range, and only empty entropy fails |
| `CardanoIcarus.MasterKeyIs` | cardano_derive.go:27-38 | the master key is PBKDF2 of the passphrase with the entropy as salt, cut into scalar, nonce and chain code, with exactly the clamped bits changed |
| `CardanoIcarus.DescendantScalars` | cardano_derive.go:27-97 | every descendant of an Icarus master key down to depth 2^26 has a scalar divisible by 8 in [2^254, 2^255) |
| `CardanoIcarus.WatchOnlyWallet` | cardano_derive.go:107-188 | the public key of any node of an Icarus tree derives, along any soft path down to depth 2^26, exactly the neutered private keys |
| `CardanoSign.SignCardano` | cardano_extkey.go:110-142 | for any unclamped scalar the signature satisfies S*B = R + h*A with canonical S and h the hash of R, A and message, written out (section 5.1.7 of RFC 8032); R comes from the hash of nonce and message |
| `CardanoSign.ScalarIsUnique` | cardano_extkey.go:110-142 | for the same R no other canonical S verifies |
| `SolanaCodec.DecodeOfEncode` | solanatx.go:871-919 | every compact-u16 value is read back with any suffix |
| `SolanaCodec.EncodeOfDecode` | solanatx.go:886-919 | every accepted compact-u16 is spelled the one way the encoder writes it |
| `SolanaLayout.CompactIs` | solanatx.go:871-884 | the three forms of a compact-u16, bit by bit |
| `SolanaCodec.ListLossless` | solanatx.go:596-648 | a counted list of lossless items is lossless, the sanity caps on the count included |
| `SolanaWire.MessageLossless` | solanatx.go:530-651 | the message codec reads back what it writes and accepts only what it writes |
| `SolanaWire.V0Lossless` | solanatx.go:656-851 | the version 0 codec, with prefix byte, lookups and late index check, is lossless both ways |
| `SolanaWire.TxLossless` | solanatx.go:474-527 | the transaction codec, choosing legacy or version 0 by the first byte, is lossless both ways |
| `SolanaWire.BodyOk` | solanatx.go:557-851 | the codec's domain spelled out: counts up to 0xffff, at most 256 keys, valid header, indexes in range, and fewer than 128 signers for legacy |
| `SolanaLayout.BodyWritten` | solanatx.go:530-690 | what is signed and sent, piece by piece: the three header bytes in order, keys, block hash, instructions, and for version 0 the prefix 80 and the lookups |
| `SolanaLayout.TransactionWritten` | solanatx.go:474-493 | a marshalled transaction: count of signatures, the signatures or 64 zeros each, the message bytes |
| `SolanaLayout.LegacyLimits` | solanatx.go:557-651 | the reader's limits for a legacy message in figures |
| `SolanaTransaction.RoundTripsExactly` | solanatx.go:474-527 | a marshalled transaction reads back, missing signatures as 64 zero bytes, with any suffix, if and only if it is valid in that sense with at most 256 signatures |
| `SolanaTransaction.ReadingIsCanonical` | solanatx.go:496-527 | whenever reading succeeds, marshalling the result gives exactly the consumed prefix |
| `SolanaTransaction.SolanaTx.MarshalBinary` | solanatx.go:474-493 | the append loops give the specified bytes, the signature-length error, or the panic on a count above 0xffff |
| `SolanaTransaction.SolanaTx.UnmarshalBinary` | solanatx.go:496-527 | success and error follow the codec; signatures and one of the two messages are replaced, the other is left |
| `SolanaTransaction.Reencode` | solanatx.go:474-527 | unmarshal then marshal on one object gives the consumed bytes if and only if no stale version 0 message shadows a legacy one |
| `SolanaTransaction.SolanaTx.Sign` | solanatx.go:401-432 | keys fill the slots of their public keys in order, the first stranger stops the run, and only signatures change |
| `SolanaTransaction.SolanaTx.Verify` | solanatx.go:436-463 | success if and only if every required signature is present, 64 bytes long and verifies over the message bytes |
| `SolanaTransaction.SigningCompletes` | solanatx.go:401-463 | with distinct signer keys, secrets of signers only, in any order and covering every signer, signing succeeds and makes all required signatures verify |
| `SolanaTransaction.SigningSucceedsExactly` | solanatx.go:401-432 | signing reports no error if and only if every secret's public key is among the signers |
| `SolanaCompile.CollectIs` | solanatx.go:143-169 | the map holds exactly the keys in use, each with the union of all requests for it |
| `SolanaCompile.BuildTable` | solanatx.go:177-212 | walking the map in any order gives the same account table and counts |
| `SolanaCompile.NewSolanaTx` | solanatx.go:141-260 | the compiled message and slot count are one function of the input, for every iteration order of the map |
| `SolanaCompile.NewSolanaTxV0` | solanatx.go:266-372 | version 0 merges, groups, sorts and numbers like legacy, keeps every account static and attaches the lookups; its loops, a second copy in the source, are the ones shared here |
| `SolanaCompile.TableIsRight` | solanatx.go:206-224 | the fee payer is first, keys are distinct, and they are exactly the keys in use |
| `SolanaCompile.StatusExactly` | solanatx.go:226-251 | there are as many signature slots as different keys asked to sign; signer and writable status read from header and position is the union of requests for every key if and only if these are at most 255 |
| `SolanaLayout.RolesOnTheWire` | solanatx.go:206-251 | with at most 255 signers the role of every account can be read off the message bytes: key at its place, signer and writable by the first three bytes |
| `SolanaCompile.KeysAscend` | solanatx.go:195-212 | behind the fee payer, keys asked for in the same ways stand in byte order |
| `KeyOrder.LessExactly` | solanatx.go:195-199 | one key comes before another if and only if they agree up to a place where it has the smaller byte |
| `SolanaCompile.SignersOfMessage` | solanatx.go:206-224 | with at most 255 signers the first keys of the message, as many as the header counts, are the keys asked to sign, each once |
| `SolanaCompile.CompiledHeaderValid` | solanatx.go:856-867 | the compiled header passes validation if and only if at most 255 keys sign or no key signs read-only, and its signer count is that number, or 0 for 256 |
| `SolanaCompile.IndexesResolve` | solanatx.go:231-243 | every compiled index leads back to its original key, and data is kept |
| `SolanaCompile.FailsExactly` | solanatx.go:214-216 | compilation fails if and only if the instructions and the fee payer mention more than 256 different keys |
| `SolanaCompile.CompiledTravels` | solanatx.go:141-527 | a compiled legacy transaction is read back from its own bytes, with any suffix, if and only if at most 127 keys sign, or 256 of which none is read-only |
| `SolanaCompile.CompiledV0Travels` | solanatx.go:266-527 | a compiled version 0 transaction is read back, with any suffix, if and only if at most 255 keys sign or none of them is read-only |
| `SolanaCompile.SignerCountsReachable` | solanatx.go:206-224 | every number of signers from 1 to 256 compiles, whether the signers besides the fee payer are all writable or all read-only, and at 256 the roles read from the header are wrong |
| `SolanaCompile.CompiledSigns` | solanatx.go:401-463 | with at most 255 signers, secrets for exactly the keys asked to sign, in any order, sign a compiled transaction without error and make it verify |
| `SolanaDelivery.ArrivesExactly` | solanatx.go:401-527 | signed with the secrets of its signers, a message is marshalled, read back with any suffix as the same message, and verifies, if and only if it is valid for the reader |
| `SolanaDelivery.LegacyArrives` | solanatx.go:141-527 | compiled from any calls, signed with secrets for exactly the keys asked to sign, marshalled, read and verified: a legacy transaction arrives if and only if at most 127 keys sign |
| `SolanaDelivery.VersionedArrives` | solanatx.go:266-527 | the same for version 0: if and only if at most 255 keys sign |
| `SolanaDelivery.SendLegacy` | solanatx.go:141-527 | the whole way on objects: the transaction compiled, signed and marshalled from one object, unmarshalled into a fresh one and verified there holds the compiled message and passes if and only if at most 127 keys sign |
| `SolanaDelivery.SendVersioned` | solanatx.go:266-527 | the same with lookups in version 0, if and only if at most 255 keys sign |
| `Rewards.CumulativeHalving` | reward.go:187-210 | the interval loop on 64-bit words gives the per-block sum over the first (height + 1) mod 2^64 blocks |
| `Rewards.HalvingExactly` | reward.go:187-210 | so it is the sum over blocks 0..height if and only if height < 2^64 - 1 |
| `Rewards.CumulativeDoge` | reward.go:217-265 | the sum over blocks 0..height below the horizon, and the exact wrong value above it |
| `Rewards.CumulativeDogeExactly` | reward.go:217-265 | the result is the per-block sum if and only if height < 2^63 + 599999 |
| `Rewards.CumulativeDash` | reward.go:272-308 | full years plus the current one give the per-block sum at every height |
| `Rewards.CumulativeReward` | reward.go:165-183 | for every known network the result is the per-block sum if and only if the height is one of those; unknown networks fail |
| `Rewards.BlockReward` | reward.go:87-105 | fails exactly for unknown networks; otherwise the result is what the documented rule of the network's model pays, said without the code's cut-off, shifts and divisions: the floor of base / 2^(height/interval), Dogecoin's halved 10^14 and flat tail, or the floor of base * (13/14)^years |
| `Rewards.PaysExactly` | reward.go:110-161 | for every known network and height a number is what the model's documented rule pays if and only if it is the reward the code computes, so stopping at 32 halvings changes nothing |
| `Rewards.RewardNeverRises` | reward.go:110-161 | under every reward model with a network's parameters or any other sound ones, a later block never pays more than an earlier one |
| `Rewards.ShrDivides` | reward.go:121-124 | the shifted reward is floor(base / 2^n) |
| `Rewards.BitcoinCap` | reward.go:33-37 | Bitcoin's supply never exceeds 2,099,999,997,690,000 satoshis and reaches it after 33 eras |
| `Rewards.NetworkCaps` | reward.go:31-63 | for each of the six halving networks by name: 50 coins in the first block, the final supply in figures, which is never exceeded and is reached after the stated number of blocks |
| `Rewards.DogecoinSupply` | reward.go:130-142 | Dogecoin's supply in figures at every height from 600,000 on |
| `Rewards.DashSupply` | reward.go:144-161 | Dash's first year in figures, and the bound it never reaches |
| `Rewards.OtherNetworks` | reward.go:65-83 | the models of the networks that do not halve |
| `Rewards.NothingMinted` | reward.go:80-83 | a network without block rewards mints nothing |
| `Rewards.DashCap` | reward.go:144-161 | Dash's supply stays strictly below 14 * 210240 * base at every height |
| `AbiEncoder.WordOfExactly` | evmabi.go:134-151 | exactly the integers strictly between -2^256 and 2^256 are accepted, each as its residue mod 2^256 |
| `AbiEncoder.HexDecodeExactly` | evmabi.go:204-209 | a text decodes to a byte string if and only if, letter case aside, it is that string in hexadecimal digits |
| `AbiEncoder.AddressWord` | evmabi.go:183-190 | an address is accepted if and only if it has 20 bytes, and is written as twelve zeros and those bytes |
| `AbiEncoder.TypesAre` | evmabi.go:109-129 | the type names that are taken, as numbers, addresses or byte strings |
| `AbiEncoder.AbiBuffer.AppendBigInt` | evmabi.go:134-151 | one static word is appended, or the range error leaves the builder unchanged |
| `AbiEncoder.AbiBuffer.AppendBytes` | evmabi.go:154-160 | one dynamic parameter is appended with a pending offset |
| `AbiEncoder.AbiBuffer.EncodeTypes` | evmabi.go:101-131 | parameters are appended in order up to the first refusal, whose error is returned; a count mismatch appends nothing |
| `AbiEncoder.AbiBuffer.Bytes` | evmabi.go:232-248 | the back-patching loop (`WriteDeferred`) produces the layout and changes nothing, so repeated calls agree |
| `AbiEncoder.EncodeFresh` | evmabi.go:259-266 | from an empty builder the returned string decodes, parameter by parameter, to what was accepted |
| `AbiEncoder.FixedBytesExactly` | evmabi.go:111-151 | a bytes4 or bytes32 parameter is taken as a number; for a number of that many bytes the encoding is the specification's (the bytes first, then zeros) if and only if the type is bytes32 or the number is zero |
| `AbiEncoder.Bytes4IsMisaligned` | evmabi.go:111-151 | the number 1 as a bytes4 is accepted and is not written as the specification writes 00 00 00 01 |
| `AbiLayout.EncodingDecodes` | evmabi.go:232-248 | a specification decoder (word, or 32-aligned offset to length, data and zero padding) gets every parameter back |
| `AbiLayout.EncodingInjective` | evmabi.go:232-248 | parameter lists of the same kinds with one encoding are equal |
| `AbiLayout.StaticKept` | evmabi.go:242-243 | no back-patch touches the head word of a static parameter |
| `AbiLayout.EncodingPlaces` | evmabi.go:235-245 | the head word of every dynamic parameter holds the place where its padded tail stands |
| `AbiLayout.TailsAreDisjoint` | evmabi.go:235-245 | tails stand in order without overlap, and consecutive ones without gap |
| `AbiLayout.TailAligned` | evmabi.go:235-245 | tails stand behind all heads at a multiple of 32 from the start of the parameters |
| `AbiLayout.BaseKept` | evmabi.go:33-35 | bytes the builder started with are kept |
| `TronRaw.VarintLoop` | trontx.go:65-72 | the shift loop writes the base-128 form |
| `TronRaw.ReadFieldsOf` | trontx.go:74-90 | an ordinary protobuf reader gets any written list of fields back, in order |
| `TronRaw.TronTx.RawData` | trontx.go:225-255 | the appends give the fields in ascending order with defaults left out, or the error for no or an unsupported contract |
| `TronRaw.RawDataDecodes` | trontx.go:210-255 | a protobuf reader that accepts fields in any order decodes the raw data to exactly the transaction |
| `TronRaw.RawDataInjective` | trontx.go:225-255 | transactions with the same raw data are equal |
| `TronRaw.TronTx.MarshalBinary` | trontx.go:307-318 | a protobuf reader finds the raw data in field 1 and every signature, in order, in field 2 |
| `TronLayout.RawLayout` | trontx.go:225-255 | what is hashed into the transaction id, byte by byte: the tag in front of every field, defaults left out, every contract with its type number, type url and parameter |
| `TronLayout.TransactionLayout` | trontx.go:307-318 | the raw data behind tag 0a and every signature behind tag 12 |

## Left out

- RLP, CBOR, base58, cashaddr and bech32m encodings, and the EVM and Cardano transaction formats built on them: they rest on packages that are not part of this model.
- JSON marshalling, hex formatting of hashes, error texts and key type switches.
- Address version tables, `GuessOut`, `GuessPubKey*` and the fixed Solana instruction builders: each claim is settled by reading one branch.
- btcamount.go, eip55.go, solana_pda.go, cardanotx.go: smaller claims than those above.
- Letter case outside ASCII in Bech32 texts: only the ASCII case mapping is modelled.
- Pointer identity of transaction inputs and outputs: they are values in a sequence, so sharing one input object between two transactions is not captured.
- BtcTransaction.BtcTx.Dup: inputs and outputs are values, so that the copy has its own input objects holds by construction and is not stated.
- Slice aliasing and capacity effects; the ABI buffer's patching is done on a sequence.
- The contents of objects after a failed read: only that it fails, and what was consumed, is stated for `BtcTx.ReadFrom` and `SolanaTx.UnmarshalBinary`.
- `ResolveMultisigPubKey`, which searches keys by trial verification. Taproot script-path spends are parsed and their message is modelled, but `Sign` never makes one, so no claim ties them to a signer.
- Points of the Edwards curve outside the prime-order group: public keys handed to watch-only derivation decode to group elements.
- The check that the tweak fits the order a second time in `p2trSign`: it repeats one that already passed.
- `EncodeAbi`'s splitting of the signature text, `EncodeAuto`, and the method selector of `Call`.
- Base58 decoding in `AddTransfer` and the other Tron contract builders, and Tron signing; contract type urls are a parameter.
- `io.Reader` errors other than the end of the stream.
- Rewards.CumulativeHalving: the halving interval is below 2^63, as all configured ones are.
