/** The functions exported to Elixir (src/lib.rs). `transfer_builder` fixes
    which optional arguments of the builder are present and uses the nonce,
    cut to 32 bits, as the leaf index; the tree and mint functions pass their
    arguments straight on. */
module Nif {
  import opened Wrappers
  import opened Numeric
  import Base58
  import opened Sdk
  import opened Utils
  import opened Transfer

  /** The nine arguments of the exported `transfer_builder`. */
  datatype TransferNifArgs = TransferNifArgs(
    payerSecretKey: string,
    toAddress: string,
    assetId: string,
    nonce: u64,
    dataHash: string,
    creatorHash: string,
    root: string,
    proof: seq<string>,
    merkleTree: string)

  /** Lines 45-61: the builder's arguments. */
  function BuilderArgs(n: TransferNifArgs): TransferArgs {
    TransferArgs(
      n.payerSecretKey,
      n.toAddress,
      Some(n.assetId),
      Some(n.nonce),
      Some(n.dataHash),
      Some(n.creatorHash),
      Some(n.root),
      Some(n.proof),
      Some(n.merkleTree),
      None,
      Some(TruncateToU32(n.nonce)),
      None,
      None,
      None,
      None)
  }

  /** Lines 33-62. */
  function TransferNif(lib: Library, n: TransferNifArgs): Outcome<Result<TransferPlan, TransferError>, Panic> {
    TransferBuilder(lib, BuilderArgs(n))
  }

  /** Every optional argument that has a "... is required" error is present,
      and no DAS response is passed. */
  lemma NifArgumentsPresent(n: TransferNifArgs)
    ensures var a := BuilderArgs(n);
      && a.leafId.Some? && a.dataHash.Some? && a.creatorHash.Some? && a.root.Some?
      && a.proof.Some? && a.merkleTree.Some? && a.index.Some?
      && a.dasGetAssetProof.None?
  {
  }

  /** Through the exported function no argument is ever reported missing and
      the DAS error cannot occur: every error is about an argument's content. */
  lemma NifNoMissingArgument(lib: Library, n: TransferNifArgs)
    requires TransferNif(lib, n).Completed? && TransferNif(lib, n).value.Err?
    ensures !TransferNif(lib, n).value.error.Required?
    ensures TransferNif(lib, n).value.error != ProofFromDasNotImplemented
  {
    var a := BuilderArgs(n);
    if ParseParties(lib, a).Err? {
      ParsePartiesErrors(lib, a);
    } else {
      var decoded := DecodeProofSpec(n.proof);
      assert decoded.Completed?;
      FinishPlanErrors(lib, a, ParseParties(lib, a).value, decoded.value);
    }
  }

  /** Lines 49 and 56: the nonce is the leaf id, and the index is the nonce
      modulo 2^32, so the two agree exactly when the nonce fits in 32 bits. */
  lemma NifLeafPosition(n: TransferNifArgs)
    ensures BuilderArgs(n).leafId == Some(n.nonce)
    ensures BuilderArgs(n).index == Some(n.nonce % 0x1_0000_0000)
    ensures BuilderArgs(n).index.value == n.nonce <==> n.nonce < 0x1_0000_0000
  {
  }

  /** Lines 55 and 57-58: the payer is owner and delegate, the owner signs,
      and the tree config is the one derived from the tree. */
  lemma NifPlanDefaults(lib: Library, n: TransferNifArgs)
    requires Succeeds(lib, BuilderArgs(n))
    ensures var plan := PlanOf(lib, BuilderArgs(n));
      && plan.leafOwner == plan.payer.pubkey
      && plan.leafDelegate == plan.payer.pubkey
      && plan.leafOwnerIsSigner && !plan.leafDelegateIsSigner
      && plan.treeConfig == lib.findTreeConfigPda(plan.merkleTree)
      && plan.nonce == n.nonce
      && plan.index == n.nonce % 0x1_0000_0000
  {
    var a := BuilderArgs(n);
    TransferParties(lib, a);
    TransferSigner(lib, a);
    TransferTreeAccounts(lib, a);
    TransferLeafArguments(lib, a);
  }

  /** Arguments written out in the encodings the builder parses are accepted,
      and the plan holds exactly the keys, hashes and proof nodes written. */
  lemma NifAcceptsEncoded(lib: Library, secretKey: seq<byte>, payer: Keypair,
                          newOwner: Pubkey, assetId: string, nonce: u64,
                          dataHash: Bytes32, creatorHash: Bytes32, root: Bytes32,
                          nodes: seq<Bytes32>, merkleTree: Pubkey)
    requires lib.keypairFromBytes(secretKey) == Ok(payer)
    ensures var n := TransferNifArgs(
        Base58.Encode(secretKey), PubkeyToString(newOwner), assetId, nonce,
        Base58.Encode(dataHash), Base58.Encode(creatorHash), Base58.Encode(root),
        seq(|nodes|, i requires 0 <= i < |nodes| => Base58.Encode(nodes[i])),
        PubkeyToString(merkleTree));
      TransferNif(lib, n) == Completed(Ok(TransferPlan(
        payer, newOwner, lib.findTreeConfigPda(merkleTree),
        payer.pubkey, true, payer.pubkey, false,
        merkleTree, root, dataHash, creatorHash,
        nonce, nonce % 0x1_0000_0000,
        seq(|nodes|, i requires 0 <= i < |nodes| => ProgramAccountMeta(nodes[i], false, false)))))
  {
    Base58.DecodeEncode(secretKey);
    PubkeyRoundTrip(newOwner);
    PubkeyRoundTrip(merkleTree);
    ParseHashOfEncoded(Root, root);
    ParseHashOfEncoded(DataHash, dataHash);
    ParseHashOfEncoded(CreatorHash, creatorHash);
    DecodeProofOfEncoded(nodes);
  }

  /** '0' is not in the base58 alphabet, so a secret key starting with it is
      refused at byte 0 before anything else is looked at. */
  lemma NifRejectsZeroSecretKey(lib: Library, n: TransferNifArgs)
    requires |n.payerSecretKey| > 0 && n.payerSecretKey[0] == '0'
    ensures TransferNif(lib, n) == Completed(Err(SecretKeyNotBase58(Base58.InvalidCharacter('0', 0))))
  {
    assert !Base58.IsBase58Char(n.payerSecretKey[0]);
    assert Base58.FirstInvalid(n.payerSecretKey, 0) == Some(0);
  }

  /** The builder a tree or mint function hands its arguments to. */
  datatype BuilderCall =
    | CreateTreeConfigCall(payerSecretKey: string)
    | MintV1Call(payerSecretKey: string, merkleTree: string, name: string, symbol: string,
                 uri: string, sellerFeeBasisPoints: u16, share: u8)

  /** Lines 6-9. */
  function CreateTreeConfigNif(payerSecretKey: string): (call: BuilderCall)
    ensures call.CreateTreeConfigCall? && call.payerSecretKey == payerSecretKey
  {
    CreateTreeConfigCall(payerSecretKey)
  }

  /** Lines 11-30. */
  function MintV1Nif(payerSecretKey: string, merkleTree: string, name: string, symbol: string,
                     uri: string, sellerFeeBasisPoints: u16, share: u8): (call: BuilderCall)
    ensures call.MintV1Call?
    ensures call.payerSecretKey == payerSecretKey && call.merkleTree == merkleTree
    ensures call.name == name && call.symbol == symbol && call.uri == uri
    ensures call.sellerFeeBasisPoints == sellerFeeBasisPoints && call.share == share
  {
    MintV1Call(payerSecretKey, merkleTree, name, symbol, uri, sellerFeeBasisPoints, share)
  }
}
