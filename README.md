# Compressed-NFT transfer builder: a Dafny model

This project models the native Rust crate behind the Elixir `MplBubblegum` module. It covers three parts:

- **`transfer_builder`** (`builders/transfer.rs`). It validates the fifteen arguments of a compressed-NFT transfer in a fixed order and returns the first failure as an error string. It fills in defaults: the leaf owner comes from the payer, the delegate from the owner, and the tree config from the tree. It decides whether the owner or the delegate signs. It turns the Merkle proof path into read-only remaining accounts. It then converts the program-crate instruction into an SDK instruction.
- **`decode_proof` and `from_str_const`** (`utils.rs`). `decode_proof` turns base58 proof strings into 32-byte nodes and aborts the whole call on the first bad entry. `from_str_const` parses a public key or aborts.
- **The exported functions** (`lib.rs`). The transfer function decides which optional builder arguments are present and uses the nonce, cut to 32 bits, as the leaf index. The tree and mint functions pass their arguments straight on.

Modelling choices:

- A Rust panic (`unwrap`, `expect`, `copy_from_slice` on a slice of the wrong length) is the `Panicked` case of `Wrappers.Outcome`. A returned `Err` is `Wrappers.Result`.
- Every error string of `transfer_builder` is a constructor of `Transfer.TransferError`, and `Message()` gives its text.
- Base58 is modelled concretely with the Bitcoin alphabet (`base58.dfy`). Decoding and encoding are proved inverse: every byte string decodes back from its text, and every base58 string is the text of the bytes it decodes to.
- `Keypair::from_bytes` and `TreeConfig::find_pda` are cryptography, so they are parameters: the two function fields of `Sdk.Library`. `Library.Valid()` states the length contract of `Keypair::from_bytes`: it succeeds only on 64 bytes, and the public key is the second half.
- The validation order is stated twice. `Transfer.TransferBuilder` follows the code. A separate reference lists the checks (`Transfer.Check`): `Fails` says when each check fails and `ErrorOf` which error it reports. `Transfer.TransferBuilderCheckOrder` proves that the first failing check decides the outcome.
- `decode_proof` keeps its imperative form. `Utils.DecodeProof` is a loop that fills a 32-byte array per entry. It is proved equal to the recursive specification `Utils.DecodeProofSpec`, and the properties are proved about that specification.

## Model

| member | source | states |
|---|---|---|
| Base58.Decode | native/mpl_bubblegum/src/builders/transfer.rs:41-43 | Decoding fails exactly when some character lies outside the base58 alphabet. The error points at the first such character. It is the non-ASCII error exactly when that character's code is 128 or more. Otherwise it is the invalid-character error carrying that character. |
| Base58.DecodeEncode | native/mpl_bubblegum/src/utils.rs:18-21 | For every byte string, decoding its base58 text gives back the same bytes, leading zero bytes included. |
| Base58.EncodeDecode | native/mpl_bubblegum/src/utils.rs:9 | Every base58 string is the encoding of the bytes it decodes to. A string therefore has only one form that parses to a given byte string. |
| Base58.LongDecodesLong | native/mpl_bubblegum/src/builders/transfer.rs:48-49 | A base58 string of more than 44 characters decodes to more than 32 bytes. |
| Sdk.PubkeyFromStr | native/mpl_bubblegum/src/builders/transfer.rs:48-49 | A string is a public key exactly when it decodes to exactly 32 bytes, and the key is those bytes. The function includes the SDK's pre-check, which refuses strings longer than 44 UTF-8 bytes. |
| Sdk.LongStringsAreNotKeys | native/mpl_bubblegum/src/builders/transfer.rs:48-49 | A string longer than 44 UTF-8 bytes never decodes to exactly 32 bytes: it either fails to decode or gives more than 32. The pre-check therefore never changes the answer. |
| Sdk.Library.Valid | native/mpl_bubblegum/src/builders/transfer.rs:44-45 | The contract assumed of `Keypair::from_bytes`: it succeeds only on 64 bytes, with the secret the first 32 and the public key the last 32. The other field of `Sdk.Library` stands for `TreeConfig::find_pda` (transfer.rs:166) and has no contract. |
| Sdk.PubkeyRoundTrip | native/mpl_bubblegum/src/builders/transfer.rs:48-50 | Every key parses back from its string form. |
| Sdk.PubkeyRejectsNonAlphabet | native/mpl_bubblegum/src/builders/transfer.rs:48-49 | A string holding a character outside the alphabet is never a key. |
| Utils.DecodeEntry | native/mpl_bubblegum/src/utils.rs:16-25 | One proof entry decodes without aborting exactly when it is base58 for exactly 32 bytes, and the node is those bytes. Text that is not base58 aborts with the decode error (the `unwrap`). Base58 text of another length aborts with that length (the `copy_from_slice`). |
| Utils.DecodeProofSpec | native/mpl_bubblegum/src/utils.rs:13-31 | The entry-by-entry specification of `decode_proof`; it has no contract of its own. `Utils.DecodeProof` is proved equal to it. Its behaviour is stated by `DecodeProofEntries`, `DecodeProofCompletes`, `DecodeProofAborts`, `DecodeProofConcat` and `DecodeProofOfEncoded`. |
| Utils.DecodeProof | native/mpl_bubblegum/src/utils.rs:13-31 | The loop returns exactly what the entry-by-entry specification returns: the whole list of nodes, or the abort caused by the first bad entry. |
| Utils.DecodeProofConcat | native/mpl_bubblegum/src/utils.rs:16-28 | Decoding a concatenation of two lists decodes the first list and then the second. The first abort wins; otherwise the node lists are joined. |
| Utils.DecodeProofEntries | native/mpl_bubblegum/src/utils.rs:13-30 | A completed decode has one node per entry, in input order. Node i is exactly the 32 bytes entry i decodes to, with no truncation or padding. An empty input gives an empty list. |
| Utils.DecodeProofCompletes | native/mpl_bubblegum/src/utils.rs:18-25 | The decode completes exactly when every entry is base58 for exactly 32 bytes. |
| Utils.DecodeProofAborts | native/mpl_bubblegum/src/utils.rs:18-25 | An abort comes from the first bad entry: every earlier entry decodes, and the reason is that entry's own failure (not base58, or the wrong length). No partial list is returned. |
| Utils.DecodeProofOfEncoded | native/mpl_bubblegum/src/utils.rs:13-31 | A proof path written as the base58 texts of its nodes decodes back to those nodes. |
| Utils.FromStrConst | native/mpl_bubblegum/src/utils.rs:7-10 | The call completes exactly when the string is base58 for exactly 32 bytes, and the key is those bytes. Otherwise it aborts, for example on "" or "1", and the abort names the string. |
| Utils.FromStrConstKeyStrings | native/mpl_bubblegum/src/utils.rs:8-9 | A string parses to key k exactly when it is k's string form. Parsing and `to_string` are inverse in both directions. |
| Utils.FromStrConstRejectsNonAlphabet | native/mpl_bubblegum/src/utils.rs:8-9 | A string with a character outside the alphabet aborts. |
| Numeric.TruncateToU32 | native/mpl_bubblegum/src/lib.rs:56 | `as u32` keeps values below 2^32 and otherwise differs from its input by a multiple of 2^32. |
| Transfer.ParseHash | native/mpl_bubblegum/src/builders/transfer.rs:99-135 | The three-way rule for root, data hash and creator hash. An absent argument is "required". A string with a non-alphabet character is "Invalid string". A base58 string of another length is "Invalid length". Otherwise, and only then, the result is `Ok` of the 32 decoded bytes. Each condition holds in both directions. |
| Transfer.ParseHashOfEncoded | native/mpl_bubblegum/src/builders/transfer.rs:99-135 | The base58 text of a byte string is accepted back as exactly those bytes if it has 32 of them, and refused with the length error otherwise. |
| Transfer.ParsePayerChecks | native/mpl_bubblegum/src/builders/transfer.rs:41-45 | The secret-key encoding check comes before the keypair check. The first of them that fails decides the error; if neither fails, the payer is parsed. |
| Transfer.ParseKeysChecks | native/mpl_bubblegum/src/builders/transfer.rs:47-68 | After the payer, the new owner, owner and delegate key checks run in that order. The first that fails decides the error. |
| Transfer.ParsePartiesChecks | native/mpl_bubblegum/src/builders/transfer.rs:41-68 | The first failing check among the five party checks decides the error; if none fails, the parties are parsed. |
| Transfer.ProofStringsCheck | native/mpl_bubblegum/src/builders/transfer.rs:71-82 | Without a proof, the error is the DAS error when a DAS response was given and "proof is required" otherwise. With a proof, the proof strings are used as given. |
| Transfer.ParseLeafHashesChecks | native/mpl_bubblegum/src/builders/transfer.rs:98-135 | Root, data hash and creator hash are checked in that order, and the first that fails decides the error. |
| Transfer.PositionChecksFirst | native/mpl_bubblegum/src/builders/transfer.rs:137-147 | A missing leaf id is reported before a missing index. |
| Transfer.ParseTreeAccountsChecks | native/mpl_bubblegum/src/builders/transfer.rs:149-168 | The merkle tree check (missing or invalid) comes before the tree config check. |
| Transfer.FinishPlanChecks | native/mpl_bubblegum/src/builders/transfer.rs:98-168 | The seven checks after the proof decode run in order (hashes, leaf id, index, tree, tree config). The first that fails decides the error; if none fails, a plan is returned. |
| Transfer.TransferBuilderCheckOrder | native/mpl_bubblegum/src/builders/transfer.rs:41-183 | The whole validation order. The first failing check among the six before the proof decode decides the error. If none fails, a proof was given and is decoded, and a bad entry aborts the call. Otherwise the first failing check among the seven after the decode decides the error. If no check fails, the call returns a plan. |
| Transfer.ParsePartiesErrors | native/mpl_bubblegum/src/builders/transfer.rs:41-68 | The parties stage reports only secret-key errors and invalid-key errors. |
| Transfer.FinishPlanErrors | native/mpl_bubblegum/src/builders/transfer.rs:98-168 | When every argument of the last stage is present, that stage reports only invalid-hash and invalid-key errors. |
| Transfer.TransferBuilder | native/mpl_bubblegum/src/builders/transfer.rs:20-183 | `transfer_builder` up to the instruction, with the errors as `TransferError` values. It has no contract of its own. Its behaviour is stated by `TransferBuilderCheckOrder` (which error, and where the decode aborts), by `TransferParties`, `TransferPayerKey`, `TransferSigner`, `TransferRemainingAccounts`, `TransferLeafArguments` and `TransferTreeAccounts` (the plan's contents), and by `TransferReadsOnly` and `TransferUnusedArguments` (what it reads). |
| Transfer.TransferBuilderText | native/mpl_bubblegum/src/builders/transfer.rs:36-168 | The same call with each error turned into its text, as the `Result<String, String>` of line 36 returns it. It has no contract of its own. `TransferProofMissing` states two of its texts. |
| Transfer.TransferParties | native/mpl_bubblegum/src/builders/transfer.rs:41-67 | In a successful plan the payer is the keypair built from the decoded secret key, and the new owner is the parsed argument. The owner defaults to the payer's key and the delegate to the owner; a given owner or delegate is the parsed argument. |
| Transfer.TransferPayerKey | native/mpl_bubblegum/src/builders/transfer.rs:44-45 | With a well-behaved keypair library, the secret key decodes to 64 bytes. The payer's secret is the first half of them and its key the second half. |
| Transfer.TransferSigner | native/mpl_bubblegum/src/builders/transfer.rs:170-175 | Exactly one of owner and delegate is a signer. The delegate signs exactly when a `leaf_delegate` argument was given (line 53). |
| Transfer.TransferRemainingAccounts | native/mpl_bubblegum/src/builders/transfer.rs:89-96 | There is one remaining account per proof entry, in input order. Each holds the 32 bytes its entry decodes to and is neither signer nor writable. |
| Transfer.TransferLeafArguments | native/mpl_bubblegum/src/builders/transfer.rs:98-147 | Root, data hash and creator hash are the bytes their strings decode to. Nonce and index are the given arguments. |
| Transfer.TransferTreeAccounts | native/mpl_bubblegum/src/builders/transfer.rs:149-168 | The tree is the parsed argument. Without a tree config argument the config is the address derived from the tree; with one it is the parsed argument. |
| Transfer.TransferReadsOnly | native/mpl_bubblegum/src/builders/transfer.rs:20-36 | Two argument lists that agree on every argument the function reads give the same outcome. |
| Transfer.TransferUnusedArguments | native/mpl_bubblegum/src/builders/transfer.rs:20-36 | `asset_id` and `das_get_asset` never change the outcome. `das_get_asset_proof` changes it only when no proof is given. |
| Transfer.TransferProofMissing | native/mpl_bubblegum/src/builders/transfer.rs:71-82 | Once the parties are valid and no proof is given, the returned string is the DAS message or the "proof is required" message. |
| Transfer.ToSdkInstruction | native/mpl_bubblegum/src/builders/transfer.rs:186-194 | The conversion keeps the program id, the number and order of the accounts, each account's key and signer and writable flags, and the data bytes. |
| Transfer.ToSdkInstructionRoundTrip | native/mpl_bubblegum/src/builders/transfer.rs:186-194 | The reverse conversion undoes the conversion, in both directions, so nothing is lost. |
| Nif.BuilderArgs | native/mpl_bubblegum/src/lib.rs:45-61 | The builder arguments the exported function passes. It has no contract of its own. `NifArgumentsPresent` and `NifLeafPosition` state what it passes. |
| Nif.TransferNif | native/mpl_bubblegum/src/lib.rs:33-62 | The exported `transfer_builder`: the builder applied to those arguments. It has no contract of its own. `NifNoMissingArgument`, `NifPlanDefaults`, `NifAcceptsEncoded` and `NifRejectsZeroSecretKey` state its behaviour. |
| Nif.NifArgumentsPresent | native/mpl_bubblegum/src/lib.rs:45-61 | Every optional argument that has a "required" error is passed as present, and no DAS response is passed. |
| Nif.NifNoMissingArgument | native/mpl_bubblegum/src/lib.rs:45-61 | Through the exported function, no "required" error and no DAS error can occur. Every error is about an argument's content. |
| Nif.NifLeafPosition | native/mpl_bubblegum/src/lib.rs:49-56 | The nonce is passed as the leaf id, and the index is the nonce modulo 2^32. The two agree exactly when the nonce is below 2^32. |
| Nif.NifPlanDefaults | native/mpl_bubblegum/src/lib.rs:55-58 | In a successful plan, the payer's key is both owner and delegate, the owner signs and the delegate does not. The tree config is derived from the tree, the nonce is passed through, and the index is the nonce modulo 2^32. |
| Nif.NifAcceptsEncoded | native/mpl_bubblegum/src/lib.rs:33-62 | Arguments written in the encodings the builder parses are accepted, for any nodes, keys, hashes and nonce. The plan holds exactly what was written. |
| Nif.NifRejectsZeroSecretKey | native/mpl_bubblegum/src/lib.rs:45-46 | A secret key starting with '0' (not in the alphabet) is refused with the invalid-character error at byte 0, before any other argument is looked at. |
| Nif.CreateTreeConfigNif | native/mpl_bubblegum/src/lib.rs:6-9 | The secret key is handed unchanged to the tree-config builder. |
| Nif.MintV1Nif | native/mpl_bubblegum/src/lib.rs:11-30 | All seven arguments are handed unchanged and in order to the mint builder. |

## Left out

- The RPC client and `get_latest_blockhash` (transfer.rs:37-38 and 197-201) are network calls.
- Transaction signing, bincode serialisation and the base64 output (transfer.rs:203-214) are library encodings of opaque values. The model stops at the converted instruction's inputs.
- `TransferBuilder::instruction()` (transfer.rs:171-183) is generated client code that is not among the source files. Its account layout and Borsh data bytes are not modelled. `Transfer.TransferPlan` holds exactly the values handed to it, and `Transfer.ToSdkInstruction` is modelled on any program instruction.
- `Keypair::from_bytes` (Ed25519 validity) and `TreeConfig::find_pda` (SHA-256 address derivation) are parameters of the model (`Sdk.Library`), not definitions.
- The bodies of `create_tree_config_builder` and `mint_v1_builder`, in builders/tree.rs and builders/mint.rs, are not part of this model. They depend on randomness, RPC calls and library builders. Only the forwarding in lib.rs is modelled.
- `Base58.ErrorText`: the library prints the offending character in Rust's Debug format. The escapes for control and quote characters are not modelled.
- The texts of the panics in `decode_proof` and `from_str_const` are not modelled. `Utils.Panic` records which entry or string failed and why.
- The SDK account list built at transfer.rs:84-87 is never used. The model keeps the decode it performs, because a bad entry aborts there, and drops the list itself.
- `Transfer.TransferProofMissing`: the ensures names the two error texts through `TransferError.Message()` rather than as string literals. `Message()` gives exactly the text of transfer.rs:77 and 79.
