/** `transfer_builder` (src/builders/transfer.rs): validates the arguments of a
    compressed-NFT transfer in a fixed order, fills in the defaults (owner from
    the payer, delegate from the owner, tree config from the tree) and assembles
    the logical Bubblegum `Transfer` instruction with the proof path as its
    remaining accounts. The blockhash fetch, signing and serialisation that
    follow are not part of this model. */
module Transfer {
  import opened Wrappers
  import opened Numeric
  import Base58
  import opened Sdk
  import opened Utils

  /** The fifteen arguments, in the order the function takes them. */
  datatype TransferArgs = TransferArgs(
    payerSecretKey: string,
    newLeafOwner: string,
    assetId: Option<string>,
    leafId: Option<u64>,
    dataHash: Option<string>,
    creatorHash: Option<string>,
    root: Option<string>,
    proof: Option<seq<string>>,
    merkleTree: Option<string>,
    treeConfig: Option<string>,
    index: Option<u32>,
    leafOwner: Option<string>,
    leafDelegate: Option<string>,
    dasGetAssetProof: Option<string>,
    dasGetAsset: Option<string>)

  /** The arguments the error messages name. */
  datatype Field =
    | NewLeafOwner | LeafOwner | LeafDelegate | Proof | Root | DataHash | CreatorHash
    | LeafId | Index | MerkleTree | TreeConfig
  {
    function Name(): string {
      match this
      case NewLeafOwner => "new_leaf_owner"
      case LeafOwner => "leaf_owner"
      case LeafDelegate => "leaf_delegate"
      case Proof => "proof"
      case Root => "root"
      case DataHash => "data_hash"
      case CreatorHash => "creator_hash"
      case LeafId => "leaf_id"
      case Index => "index"
      case MerkleTree => "merkle_tree"
      case TreeConfig => "tree_config"
    }
  }

  /** Every `Err` the function returns, one constructor per way of failing. */
  datatype TransferError =
    | SecretKeyNotBase58(cause: Base58.DecodeError)
    | SecretKeyRejected(detail: string)
    | InvalidPubkey(field: Field)
    | ProofFromDasNotImplemented
    | Required(field: Field)
    | InvalidHashString(field: Field)
    | InvalidHashLength(field: Field)
  {
    /** The error string the function returns. */
    function Message(): string {
      match this
      case SecretKeyNotBase58(cause) => "Failed to decode secret key: " + Base58.ErrorText(cause)
      case SecretKeyRejected(detail) => "Not a valid secret key: " + detail
      case InvalidPubkey(f) => "Invalid " + f.Name() + " pubkey string"
      case ProofFromDasNotImplemented => "Proof extraction from DAS response not implemented"
      case Required(f) => f.Name() + " is required"
      case InvalidHashString(f) => "Invalid " + f.Name() + " string"
      case InvalidHashLength(f) => "Invalid " + f.Name() + " length"
    }
  }

  /** The transfer as handed to the instruction builder: its accounts with the
      signer flags given to them, its arguments, the proof nodes as remaining
      accounts, and the payer that pays for and signs the transaction. */
  datatype TransferPlan = TransferPlan(
    payer: Keypair,
    newLeafOwner: Pubkey,
    treeConfig: Pubkey,
    leafOwner: Pubkey,
    leafOwnerIsSigner: bool,
    leafDelegate: Pubkey,
    leafDelegateIsSigner: bool,
    merkleTree: Pubkey,
    root: Bytes32,
    dataHash: Bytes32,
    creatorHash: Bytes32,
    nonce: u64,
    index: u32,
    remainingAccounts: seq<ProgramAccountMeta>)

  /** The parties of the transfer, settled before the proof is looked at. */
  datatype Parties = Parties(
    payer: Keypair,
    newLeafOwner: Pubkey,
    leafOwner: Pubkey,
    leafDelegate: Pubkey,
    delegateIsSigning: bool)

  function DecodeSecretKey(s: string): Result<seq<byte>, TransferError> {
    match Base58.Decode(s)
    case Ok(bytes) => Ok(bytes)
    case Err(e) => Err(SecretKeyNotBase58(e))
  }

  function PayerKeypair(lib: Library, bytes: seq<byte>): Result<Keypair, TransferError> {
    match lib.keypairFromBytes(bytes)
    case Ok(k) => Ok(k)
    case Err(detail) => Err(SecretKeyRejected(detail))
  }

  /** `SdkPubkey::from_str(..).map_err(|_| "Invalid <field> pubkey string")`. */
  function ParsePubkey(field: Field, s: string): Result<Pubkey, TransferError> {
    match PubkeyFromStr(s)
    case Some(k) => Ok(k)
    case None => Err(InvalidPubkey(field))
  }

  function RequireSome<T>(field: Field, o: Option<T>): Result<T, TransferError> {
    match o
    case Some(v) => Ok(v)
    case None => Err(Required(field))
  }

  /** Lines 40-45: the payer's keypair from its base58 secret key. */
  function ParsePayer(lib: Library, a: TransferArgs): Result<Keypair, TransferError> {
    var secretKeyBytes :- DecodeSecretKey(a.payerSecretKey);
    PayerKeypair(lib, secretKeyBytes)
  }

  /** Lines 40-68: payer, new owner, owner and delegate. */
  function ParseParties(lib: Library, a: TransferArgs): Result<Parties, TransferError> {
    var payer :- ParsePayer(lib, a);
    var newLeafOwner :- ParsePubkey(NewLeafOwner, a.newLeafOwner);
    var delegateIsSigning := a.leafDelegate.Some?;
    var leafOwner :- match a.leafOwner
      case Some(key) => ParsePubkey(LeafOwner, key)
      case None => Ok(payer.pubkey);
    var leafDelegate :- match a.leafDelegate
      case Some(key) => ParsePubkey(LeafDelegate, key)
      case None => Ok(leafOwner);
    Ok(Parties(payer, newLeafOwner, leafOwner, leafDelegate, delegateIsSigning))
  }

  /** Lines 71-82: the proof path must be given; a DAS response is not parsed. */
  function ProofStrings(a: TransferArgs): Result<seq<string>, TransferError> {
    match a.proof
    case Some(proofData) => Ok(proofData)
    case None =>
      if a.dasGetAssetProof.Some? then Err(ProofFromDasNotImplemented) else Err(Required(Proof))
  }

  /** Lines 89-96: one read-only, non-signer account per proof node. */
  function ProofAccounts(nodes: seq<Bytes32>): seq<ProgramAccountMeta> {
    seq(|nodes|, i requires 0 <= i < |nodes| => ProgramAccountMeta(nodes[i], false, false))
  }

  /** Lines 99-135: a root or hash argument is present, base58, and 32 bytes. */
  function ParseHash(field: Field, s: Option<string>): (r: Result<Bytes32, TransferError>)
    ensures r == Err(Required(field)) <==> s.None?
    ensures r == Err(InvalidHashString(field)) <==> s.Some? && !Base58.IsBase58(s.value)
    ensures r == Err(InvalidHashLength(field)) <==>
      s.Some? && Base58.IsBase58(s.value) && |Base58.Decode(s.value).value| != 32
    ensures r.Ok? <==> s.Some? && Base58.IsBase58(s.value) && |Base58.Decode(s.value).value| == 32
    ensures r.Ok? ==> Base58.Decode(s.value) == Ok(r.value)
  {
    match s
    case None => Err(Required(field))
    case Some(text) =>
      match Base58.Decode(text)
      case Err(_) => Err(InvalidHashString(field))
      case Ok(bytes) => if |bytes| == 32 then Ok(bytes) else Err(InvalidHashLength(field))
  }

  /** The root of the tree and the two hashes of the leaf. */
  datatype LeafHashes = LeafHashes(root: Bytes32, dataHash: Bytes32, creatorHash: Bytes32)

  /** Lines 98-135: root, data hash and creator hash, in that order. */
  function ParseLeafHashes(a: TransferArgs): Result<LeafHashes, TransferError> {
    var root :- ParseHash(Root, a.root);
    var dataHash :- ParseHash(DataHash, a.dataHash);
    var creatorHash :- ParseHash(CreatorHash, a.creatorHash);
    Ok(LeafHashes(root, dataHash, creatorHash))
  }

  /** The tree account and its config account. */
  datatype TreeAccounts = TreeAccounts(merkleTree: Pubkey, treeConfig: Pubkey)

  /** Lines 149-168: the tree is required; its config defaults to the derived address. */
  function ParseTreeAccounts(lib: Library, a: TransferArgs): Result<TreeAccounts, TransferError> {
    var merkleTree :- match a.merkleTree
      case Some(mt) => ParsePubkey(MerkleTree, mt)
      case None => Err(Required(MerkleTree));
    var treeConfig :- match a.treeConfig
      case Some(tc) => ParsePubkey(TreeConfig, tc)
      case None => Ok(lib.findTreeConfigPda(merkleTree));
    Ok(TreeAccounts(merkleTree, treeConfig))
  }

  /** Lines 98-183: the remaining checks and the assembled instruction. */
  function FinishPlan(lib: Library, a: TransferArgs, parties: Parties, nodes: seq<Bytes32>)
    : Result<TransferPlan, TransferError>
  {
    var hashes :- ParseLeafHashes(a);
    var nonce :- RequireSome(LeafId, a.leafId);
    var index :- RequireSome(Index, a.index);
    var tree :- ParseTreeAccounts(lib, a);
    Ok(TransferPlan(
      parties.payer,
      parties.newLeafOwner,
      tree.treeConfig,
      parties.leafOwner, !parties.delegateIsSigning,
      parties.leafDelegate, parties.delegateIsSigning,
      tree.merkleTree,
      hashes.root, hashes.dataHash, hashes.creatorHash,
      nonce, index,
      ProofAccounts(nodes)))
  }

  /** `transfer_builder(..)` up to the instruction (lines 20-183). The proof
      path is decoded twice, once for an SDK account list that is never used
      (lines 84-87) and once for the remaining accounts (lines 89-96); either
      decode aborts the call on a bad entry. */
  function TransferBuilder(lib: Library, a: TransferArgs)
    : Outcome<Result<TransferPlan, TransferError>, Panic>
  {
    match ParseParties(lib, a)
    case Err(e) => Completed(Err(e))
    case Ok(parties) =>
      match ProofStrings(a)
      case Err(e) => Completed(Err(e))
      case Ok(proofVec) =>
        match DecodeProofSpec(proofVec)
        case Panicked(p) => Panicked(p)
        case Completed(_) =>
          match DecodeProofSpec(proofVec)
          case Panicked(p) => Panicked(p)
          case Completed(nodes) => Completed(FinishPlan(lib, a, parties, nodes))
  }

  // ---------------------------------------------------------------------------
  // The validation order, stated independently of the function above: a list
  // of checks, each failing on its own condition, and the first failing one
  // decides the error. The proof path is decoded between the `Proof` check and
  // the `Root` check.

  datatype Check = SecretKeyEncoding | SecretKeyPair | Argument(field: Field)

  /** Lines 41-45: the payer's secret key. */
  const PayerChecks: seq<Check> := [SecretKeyEncoding, SecretKeyPair]

  /** Lines 47-68: the new owner, the owner and the delegate. */
  const KeyChecks: seq<Check> := [Argument(NewLeafOwner), Argument(LeafOwner), Argument(LeafDelegate)]

  const PartyChecks: seq<Check> := PayerChecks + KeyChecks

  const ChecksBeforeProofDecode: seq<Check> := PartyChecks + [Argument(Proof)]

  /** Lines 98-135: the root and the leaf hashes. */
  const HashChecks: seq<Check> := [Argument(Root), Argument(DataHash), Argument(CreatorHash)]

  /** Lines 137-147: the leaf's nonce and index. */
  const PositionChecks: seq<Check> := [Argument(LeafId), Argument(Index)]

  /** Lines 149-168: the tree and its config. */
  const TreeChecks: seq<Check> := [Argument(MerkleTree), Argument(TreeConfig)]

  const ChecksAfterProofDecode: seq<Check> := HashChecks + (PositionChecks + TreeChecks)

  /** A hash argument that is present, uses only the alphabet and decodes to 32 bytes. */
  predicate IsHashString(s: Option<string>) {
    s.Some? && Base58.IsBase58(s.value) && |Base58.Decode(s.value).value| == 32
  }

  predicate IsKeyString(s: string) {
    PubkeyFromStr(s).Some?
  }

  /** When a check fails. */
  predicate Fails(lib: Library, a: TransferArgs, c: Check) {
    match c
    case SecretKeyEncoding => !Base58.IsBase58(a.payerSecretKey)
    case SecretKeyPair =>
      Base58.IsBase58(a.payerSecretKey)
      && lib.keypairFromBytes(Base58.Decode(a.payerSecretKey).value).Err?
    case Argument(f) =>
      match f
      case NewLeafOwner => !IsKeyString(a.newLeafOwner)
      case LeafOwner => a.leafOwner.Some? && !IsKeyString(a.leafOwner.value)
      case LeafDelegate => a.leafDelegate.Some? && !IsKeyString(a.leafDelegate.value)
      case Proof => a.proof.None?
      case Root => !IsHashString(a.root)
      case DataHash => !IsHashString(a.dataHash)
      case CreatorHash => !IsHashString(a.creatorHash)
      case LeafId => a.leafId.None?
      case Index => a.index.None?
      case MerkleTree => a.merkleTree.None? || !IsKeyString(a.merkleTree.value)
      case TreeConfig => a.treeConfig.Some? && !IsKeyString(a.treeConfig.value)
  }

  /** The error a failing root or hash argument reports. */
  function HashError(f: Field, s: Option<string>): TransferError {
    if s.None? then Required(f)
    else if !Base58.IsBase58(s.value) then InvalidHashString(f)
    else InvalidHashLength(f)
  }

  /** The error a failing check reports. */
  function ErrorOf(lib: Library, a: TransferArgs, c: Check): TransferError
    requires Fails(lib, a, c)
  {
    match c
    case SecretKeyEncoding => SecretKeyNotBase58(Base58.Decode(a.payerSecretKey).error)
    case SecretKeyPair =>
      SecretKeyRejected(lib.keypairFromBytes(Base58.Decode(a.payerSecretKey).value).error)
    case Argument(f) =>
      match f
      case Proof => if a.dasGetAssetProof.Some? then ProofFromDasNotImplemented else Required(Proof)
      case Root => HashError(Root, a.root)
      case DataHash => HashError(DataHash, a.dataHash)
      case CreatorHash => HashError(CreatorHash, a.creatorHash)
      case LeafId => Required(LeafId)
      case Index => Required(Index)
      case MerkleTree => if a.merkleTree.None? then Required(MerkleTree) else InvalidPubkey(MerkleTree)
      case NewLeafOwner => InvalidPubkey(NewLeafOwner)
      case LeafOwner => InvalidPubkey(LeafOwner)
      case LeafDelegate => InvalidPubkey(LeafDelegate)
      case TreeConfig => InvalidPubkey(TreeConfig)
  }

  /** The first check of the list that fails, if any. */
  function FirstFailing(lib: Library, a: TransferArgs, checks: seq<Check>): (r: Option<Check>)
    ensures r.Some? ==> r.value in checks && Fails(lib, a, r.value)
    ensures r.None? <==> forall c :: c in checks ==> !Fails(lib, a, c)
  {
    if |checks| == 0 then None
    else if Fails(lib, a, checks[0]) then Some(checks[0])
    else
      var rest := FirstFailing(lib, a, checks[1..]);
      assert forall c :: c in checks ==> c == checks[0] || c in checks[1..];
      rest
  }

  /** The first failing check is found wherever it sits in the list. */
  lemma {:induction false} FirstFailingAt(lib: Library, a: TransferArgs, checks: seq<Check>, k: nat)
    requires k < |checks| && Fails(lib, a, checks[k])
    requires forall c :: c in checks[..k] ==> !Fails(lib, a, c)
    ensures FirstFailing(lib, a, checks) == Some(checks[k])
  {
    if k > 0 {
      assert checks[0] in checks[..k];
      assert checks[1..][..k - 1] == checks[..k][1..];
      assert forall c :: c in checks[..k][1..] ==> c in checks[..k];
      FirstFailingAt(lib, a, checks[1..], k - 1);
    }
  }

  /** Checking two lists in turn: a failure in the first list wins. */
  lemma {:induction false} FirstFailingConcat(lib: Library, a: TransferArgs, xs: seq<Check>, ys: seq<Check>)
    ensures FirstFailing(lib, a, xs + ys)
      == if FirstFailing(lib, a, xs).Some? then FirstFailing(lib, a, xs) else FirstFailing(lib, a, ys)
  {
    if |xs| == 0 {
      assert xs + ys == ys;
    } else {
      assert (xs + ys)[0] == xs[0];
      assert (xs + ys)[1..] == xs[1..] + ys;
      FirstFailingConcat(lib, a, xs[1..], ys);
    }
  }

  lemma ParsePayerChecks(lib: Library, a: TransferArgs)
    ensures match FirstFailing(lib, a, PayerChecks)
      case Some(c) => ParsePayer(lib, a) == Err(ErrorOf(lib, a, c))
      case None => ParsePayer(lib, a).Ok?
  {
    var cs := PayerChecks;
    if Fails(lib, a, cs[0]) {
      FirstFailingAt(lib, a, cs, 0);
    } else if Fails(lib, a, cs[1]) {
      FirstFailingAt(lib, a, cs, 1);
    }
  }

  lemma ParseKeysChecks(lib: Library, a: TransferArgs)
    requires ParsePayer(lib, a).Ok?
    ensures match FirstFailing(lib, a, KeyChecks)
      case Some(c) => ParseParties(lib, a) == Err(ErrorOf(lib, a, c))
      case None => ParseParties(lib, a).Ok?
  {
    var cs := KeyChecks;
    if Fails(lib, a, cs[0]) {
      FirstFailingAt(lib, a, cs, 0);
    } else if Fails(lib, a, cs[1]) {
      FirstFailingAt(lib, a, cs, 1);
    } else if Fails(lib, a, cs[2]) {
      FirstFailingAt(lib, a, cs, 2);
    }
  }

  lemma ParsePartiesChecks(lib: Library, a: TransferArgs)
    ensures match FirstFailing(lib, a, PartyChecks)
      case Some(c) => ParseParties(lib, a) == Err(ErrorOf(lib, a, c))
      case None => ParseParties(lib, a).Ok?
  {
    FirstFailingConcat(lib, a, PayerChecks, KeyChecks);
    ParsePayerChecks(lib, a);
    if ParsePayer(lib, a).Ok? {
      ParseKeysChecks(lib, a);
    }
  }

  lemma ProofStringsCheck(lib: Library, a: TransferArgs)
    ensures match FirstFailing(lib, a, [Argument(Proof)])
      case Some(c) => ProofStrings(a) == Err(ErrorOf(lib, a, c))
      case None => ProofStrings(a) == Ok(a.proof.value)
  {
    if a.proof.None? {
      FirstFailingAt(lib, a, [Argument(Proof)], 0);
    }
  }

  lemma ParseLeafHashesChecks(lib: Library, a: TransferArgs)
    ensures match FirstFailing(lib, a, HashChecks)
      case Some(c) => ParseLeafHashes(a) == Err(ErrorOf(lib, a, c))
      case None => ParseLeafHashes(a).Ok?
  {
    var cs := HashChecks;
    if Fails(lib, a, cs[0]) {
      FirstFailingAt(lib, a, cs, 0);
    } else if Fails(lib, a, cs[1]) {
      FirstFailingAt(lib, a, cs, 1);
    } else if Fails(lib, a, cs[2]) {
      FirstFailingAt(lib, a, cs, 2);
    }
  }

  lemma ParseTreeAccountsChecks(lib: Library, a: TransferArgs)
    ensures match FirstFailing(lib, a, TreeChecks)
      case Some(c) => ParseTreeAccounts(lib, a) == Err(ErrorOf(lib, a, c))
      case None => ParseTreeAccounts(lib, a).Ok?
  {
    var cs := TreeChecks;
    if Fails(lib, a, cs[0]) {
      FirstFailingAt(lib, a, cs, 0);
    } else if Fails(lib, a, cs[1]) {
      FirstFailingAt(lib, a, cs, 1);
    }
  }

  lemma PositionChecksFirst(lib: Library, a: TransferArgs)
    ensures FirstFailing(lib, a, PositionChecks) ==
      if a.leafId.None? then Some(Argument(LeafId))
      else if a.index.None? then Some(Argument(Index))
      else None
  {
    var cs := PositionChecks;
    if Fails(lib, a, cs[0]) {
      FirstFailingAt(lib, a, cs, 0);
    } else if Fails(lib, a, cs[1]) {
      FirstFailingAt(lib, a, cs, 1);
    }
  }

  lemma FinishPlanChecks(lib: Library, a: TransferArgs, parties: Parties, nodes: seq<Bytes32>)
    ensures match FirstFailing(lib, a, ChecksAfterProofDecode)
      case Some(c) => FinishPlan(lib, a, parties, nodes) == Err(ErrorOf(lib, a, c))
      case None => FinishPlan(lib, a, parties, nodes).Ok?
  {
    FirstFailingConcat(lib, a, HashChecks, PositionChecks + TreeChecks);
    FirstFailingConcat(lib, a, PositionChecks, TreeChecks);
    ParseLeafHashesChecks(lib, a);
    PositionChecksFirst(lib, a);
    ParseTreeAccountsChecks(lib, a);
    var r := FinishPlan(lib, a, parties, nodes);
    if FirstFailing(lib, a, HashChecks).Some? {
      assert r == Err(ParseLeafHashes(a).error);
    } else if a.leafId.None? {
      assert r == Err(ErrorOf(lib, a, Argument(LeafId)));
    } else if a.index.None? {
      assert r == Err(ErrorOf(lib, a, Argument(Index)));
    } else if FirstFailing(lib, a, TreeChecks).Some? {
      assert r == Err(ParseTreeAccounts(lib, a).error);
    }
  }

  /** The validation order of lines 41-161: the first failing check before the
      proof decode decides the error; if none fails, the proof was given and is
      decoded, a bad entry aborts the call, and otherwise the first failing
      check after the decode decides the error; when no check fails the call
      returns a plan. */
  lemma TransferBuilderCheckOrder(lib: Library, a: TransferArgs)
    ensures match FirstFailing(lib, a, ChecksBeforeProofDecode)
      case Some(c) => TransferBuilder(lib, a) == Completed(Err(ErrorOf(lib, a, c)))
      case None =>
        && a.proof.Some?
        && match DecodeProofSpec(a.proof.value)
           case Panicked(p) => TransferBuilder(lib, a) == Panicked(p)
           case Completed(_) =>
             match FirstFailing(lib, a, ChecksAfterProofDecode)
             case Some(c) => TransferBuilder(lib, a) == Completed(Err(ErrorOf(lib, a, c)))
             case None => TransferBuilder(lib, a).Completed? && TransferBuilder(lib, a).value.Ok?
  {
    FirstFailingConcat(lib, a, PartyChecks, [Argument(Proof)]);
    ParsePartiesChecks(lib, a);
    ProofStringsCheck(lib, a);
    if ParseParties(lib, a).Ok? && a.proof.Some? {
      var decoded := DecodeProofSpec(a.proof.value);
      if decoded.Completed? {
        FinishPlanChecks(lib, a, ParseParties(lib, a).value, decoded.value);
      }
    }
  }

  /** The parties stage only reports secret-key and key-string errors. */
  lemma ParsePartiesErrors(lib: Library, a: TransferArgs)
    requires ParseParties(lib, a).Err?
    ensures var e := ParseParties(lib, a).error;
      e.SecretKeyNotBase58? || e.SecretKeyRejected? || e.InvalidPubkey?
  {
  }

  /** With every argument of the final stage present, it only reports errors
      about their content. */
  lemma FinishPlanErrors(lib: Library, a: TransferArgs, parties: Parties, nodes: seq<Bytes32>)
    requires a.root.Some? && a.dataHash.Some? && a.creatorHash.Some?
    requires a.leafId.Some? && a.index.Some? && a.merkleTree.Some?
    requires FinishPlan(lib, a, parties, nodes).Err?
    ensures var e := FinishPlan(lib, a, parties, nodes).error;
      e.InvalidHashString? || e.InvalidHashLength? || e.InvalidPubkey?
  {
    if ParseLeafHashes(a).Ok? {
      assert FinishPlan(lib, a, parties, nodes) == Err(ParseTreeAccounts(lib, a).error);
    }
  }

  // ---------------------------------------------------------------------------
  // The plan a successful call assembles.

  predicate Succeeds(lib: Library, a: TransferArgs) {
    TransferBuilder(lib, a).Completed? && TransferBuilder(lib, a).value.Ok?
  }

  function PlanOf(lib: Library, a: TransferArgs): TransferPlan
    requires Succeeds(lib, a)
  {
    TransferBuilder(lib, a).value.value
  }

  /** A successful call went through every stage. */
  lemma SucceedsStages(lib: Library, a: TransferArgs)
    requires Succeeds(lib, a)
    ensures ParseParties(lib, a).Ok? && a.proof.Some? && DecodeProofSpec(a.proof.value).Completed?
    ensures FinishPlan(lib, a, ParseParties(lib, a).value, DecodeProofSpec(a.proof.value).value)
      == Ok(PlanOf(lib, a))
  {
  }

  /** The parties of a successful parties stage. */
  lemma ParsePartiesParts(lib: Library, a: TransferArgs)
    requires ParseParties(lib, a).Ok?
    ensures ParsePayer(lib, a).Ok? && PubkeyFromStr(a.newLeafOwner).Some?
    ensures a.leafOwner.Some? ==> PubkeyFromStr(a.leafOwner.value).Some?
    ensures a.leafDelegate.Some? ==> PubkeyFromStr(a.leafDelegate.value).Some?
    ensures var parties, payer := ParseParties(lib, a).value, ParsePayer(lib, a).value;
      && parties.payer == payer
      && parties.newLeafOwner == PubkeyFromStr(a.newLeafOwner).value
      && parties.leafOwner
         == (if a.leafOwner.Some? then PubkeyFromStr(a.leafOwner.value).value else payer.pubkey)
      && parties.leafDelegate
         == (if a.leafDelegate.Some? then PubkeyFromStr(a.leafDelegate.value).value else parties.leafOwner)
      && parties.delegateIsSigning == a.leafDelegate.Some?
  {
  }

  /** A finished plan is made of the parsed pieces. */
  lemma FinishPlanParts(lib: Library, a: TransferArgs, parties: Parties, nodes: seq<Bytes32>)
    requires FinishPlan(lib, a, parties, nodes).Ok?
    ensures ParseLeafHashes(a).Ok? && a.leafId.Some? && a.index.Some? && ParseTreeAccounts(lib, a).Ok?
    ensures var plan, hashes, tree := FinishPlan(lib, a, parties, nodes).value,
                                      ParseLeafHashes(a).value, ParseTreeAccounts(lib, a).value;
      plan == TransferPlan(
        parties.payer, parties.newLeafOwner, tree.treeConfig,
        parties.leafOwner, !parties.delegateIsSigning,
        parties.leafDelegate, parties.delegateIsSigning,
        tree.merkleTree, hashes.root, hashes.dataHash, hashes.creatorHash,
        a.leafId.value, a.index.value, ProofAccounts(nodes))
  {
  }

  /** Lines 41-67: the payer comes from the secret key; the owner defaults to
      the payer's key and the delegate to the owner; a given key is the parsed one. */
  lemma TransferParties(lib: Library, a: TransferArgs)
    requires Succeeds(lib, a)
    ensures var plan := PlanOf(lib, a);
      && Base58.Decode(a.payerSecretKey).Ok?
      && lib.keypairFromBytes(Base58.Decode(a.payerSecretKey).value) == Ok(plan.payer)
      && PubkeyFromStr(a.newLeafOwner) == Some(plan.newLeafOwner)
      && (a.leafOwner.None? ==> plan.leafOwner == plan.payer.pubkey)
      && (a.leafOwner.Some? ==> PubkeyFromStr(a.leafOwner.value) == Some(plan.leafOwner))
      && (a.leafDelegate.None? ==> plan.leafDelegate == plan.leafOwner)
      && (a.leafDelegate.Some? ==> PubkeyFromStr(a.leafDelegate.value) == Some(plan.leafDelegate))
  {
    SucceedsStages(lib, a);
    FinishPlanParts(lib, a, ParseParties(lib, a).value, DecodeProofSpec(a.proof.value).value);
    ParsePartiesParts(lib, a);
  }

  /** With a well-behaved keypair library, the payer's secret is the first
      half and its key the second half of the 64 decoded secret-key bytes. */
  lemma TransferPayerKey(lib: Library, a: TransferArgs)
    requires lib.Valid() && Succeeds(lib, a)
    ensures |Base58.Decode(a.payerSecretKey).value| == 64
    ensures PlanOf(lib, a).payer.secret == Base58.Decode(a.payerSecretKey).value[..32]
    ensures PlanOf(lib, a).payer.pubkey == Base58.Decode(a.payerSecretKey).value[32..]
  {
    TransferParties(lib, a);
    var bytes := Base58.Decode(a.payerSecretKey).value;
    assert lib.keypairFromBytes(bytes).Ok?;
  }

  /** Lines 53 and 174-175: exactly one of owner and delegate signs, and the
      delegate signs exactly when a delegate argument was given. */
  lemma TransferSigner(lib: Library, a: TransferArgs)
    requires Succeeds(lib, a)
    ensures PlanOf(lib, a).leafDelegateIsSigner <==> a.leafDelegate.Some?
    ensures PlanOf(lib, a).leafOwnerIsSigner <==> !PlanOf(lib, a).leafDelegateIsSigner
  {
    SucceedsStages(lib, a);
    FinishPlanParts(lib, a, ParseParties(lib, a).value, DecodeProofSpec(a.proof.value).value);
    ParsePartiesParts(lib, a);
  }

  /** Lines 89-96 and 182: one read-only, non-signer remaining account per
      proof entry, in input order, each holding that entry's 32 decoded bytes. */
  lemma TransferRemainingAccounts(lib: Library, a: TransferArgs)
    requires Succeeds(lib, a)
    ensures a.proof.Some?
    ensures |PlanOf(lib, a).remainingAccounts| == |a.proof.value|
    ensures forall i :: 0 <= i < |a.proof.value| ==>
      var meta := PlanOf(lib, a).remainingAccounts[i];
      && Base58.Decode(a.proof.value[i]) == Ok(meta.pubkey)
      && !meta.isSigner
      && !meta.isWritable
  {
    SucceedsStages(lib, a);
    var nodes := DecodeProofSpec(a.proof.value).value;
    FinishPlanParts(lib, a, ParseParties(lib, a).value, nodes);
    assert PlanOf(lib, a).remainingAccounts == ProofAccounts(nodes);
    DecodeProofEntries(a.proof.value);
  }

  /** Lines 98-147: the root and the hashes are the 32 bytes their strings
      decode to; nonce and index are passed through. */
  lemma TransferLeafArguments(lib: Library, a: TransferArgs)
    requires Succeeds(lib, a)
    ensures var plan := PlanOf(lib, a);
      && a.root.Some? && Base58.Decode(a.root.value) == Ok(plan.root)
      && a.dataHash.Some? && Base58.Decode(a.dataHash.value) == Ok(plan.dataHash)
      && a.creatorHash.Some? && Base58.Decode(a.creatorHash.value) == Ok(plan.creatorHash)
      && a.leafId == Some(plan.nonce)
      && a.index == Some(plan.index)
  {
    SucceedsStages(lib, a);
    FinishPlanParts(lib, a, ParseParties(lib, a).value, DecodeProofSpec(a.proof.value).value);
  }

  /** Lines 149-168: the tree is the parsed argument; without a tree config
      argument the config is the address derived from the tree, with one it is
      the parsed argument. */
  lemma TransferTreeAccounts(lib: Library, a: TransferArgs)
    requires Succeeds(lib, a)
    ensures var plan := PlanOf(lib, a);
      && a.merkleTree.Some? && PubkeyFromStr(a.merkleTree.value) == Some(plan.merkleTree)
      && (a.treeConfig.None? ==> plan.treeConfig == lib.findTreeConfigPda(plan.merkleTree))
      && (a.treeConfig.Some? ==> PubkeyFromStr(a.treeConfig.value) == Some(plan.treeConfig))
  {
    SucceedsStages(lib, a);
    FinishPlanParts(lib, a, ParseParties(lib, a).value, DecodeProofSpec(a.proof.value).value);
  }

  /** A hash written out in base58 is accepted back; a base58 string of any
      other length is refused with the length error. */
  lemma ParseHashOfEncoded(f: Field, bytes: seq<byte>)
    ensures ParseHash(f, Some(Base58.Encode(bytes)))
      == if |bytes| == 32 then Ok(bytes) else Err(InvalidHashLength(f))
  {
    Base58.DecodeEncode(bytes);
  }

  lemma FinishPlanReadsOnly(lib: Library, a: TransferArgs, b: TransferArgs,
                            parties: Parties, nodes: seq<Bytes32>)
    requires a.root == b.root && a.dataHash == b.dataHash && a.creatorHash == b.creatorHash
    requires a.leafId == b.leafId && a.index == b.index
    requires a.merkleTree == b.merkleTree && a.treeConfig == b.treeConfig
    ensures FinishPlan(lib, a, parties, nodes) == FinishPlan(lib, b, parties, nodes)
  {
    assert ParseLeafHashes(a) == ParseLeafHashes(b);
    assert ParseTreeAccounts(lib, a) == ParseTreeAccounts(lib, b);
  }

  /** Two argument lists that agree on everything the call reads give the
      same outcome. */
  lemma TransferReadsOnly(lib: Library, a: TransferArgs, b: TransferArgs)
    requires a.payerSecretKey == b.payerSecretKey && a.newLeafOwner == b.newLeafOwner
    requires a.leafOwner == b.leafOwner && a.leafDelegate == b.leafDelegate
    requires ProofStrings(a) == ProofStrings(b)
    requires a.root == b.root && a.dataHash == b.dataHash && a.creatorHash == b.creatorHash
    requires a.leafId == b.leafId && a.index == b.index
    requires a.merkleTree == b.merkleTree && a.treeConfig == b.treeConfig
    ensures TransferBuilder(lib, a) == TransferBuilder(lib, b)
  {
    assert ParsePayer(lib, a) == ParsePayer(lib, b);
    assert ParseParties(lib, a) == ParseParties(lib, b);
    if ParseParties(lib, a).Ok? && ProofStrings(a).Ok? {
      var decoded := DecodeProofSpec(ProofStrings(a).value);
      if decoded.Completed? {
        FinishPlanReadsOnly(lib, a, b, ParseParties(lib, a).value, decoded.value);
      }
    }
  }

  /** `asset_id` and `das_get_asset` are never read, and `das_get_asset_proof`
      is read only when no proof is given. */
  lemma TransferUnusedArguments(lib: Library, a: TransferArgs,
                                assetId: Option<string>, dasGetAsset: Option<string>,
                                dasGetAssetProof: Option<string>)
    ensures TransferBuilder(lib, a.(assetId := assetId, dasGetAsset := dasGetAsset))
      == TransferBuilder(lib, a)
    ensures a.proof.Some? ==>
      TransferBuilder(lib, a.(dasGetAssetProof := dasGetAssetProof)) == TransferBuilder(lib, a)
  {
    TransferReadsOnly(lib, a.(assetId := assetId, dasGetAsset := dasGetAsset), a);
    if a.proof.Some? {
      TransferReadsOnly(lib, a.(dasGetAssetProof := dasGetAssetProof), a);
    }
  }

  /** `transfer_builder` with its errors as the strings it returns. */
  function TransferBuilderText(lib: Library, a: TransferArgs)
    : Outcome<Result<TransferPlan, string>, Panic>
  {
    match TransferBuilder(lib, a)
    case Panicked(p) => Panicked(p)
    case Completed(Ok(plan)) => Completed(Ok(plan))
    case Completed(Err(e)) => Completed(Err(e.Message()))
  }

  /** Lines 71-82: with the parties settled and no proof, the DAS response
      is refused when given and the proof is reported missing otherwise. */
  lemma TransferProofMissing(lib: Library, a: TransferArgs)
    requires FirstFailing(lib, a, PartyChecks).None? && a.proof.None?
    ensures TransferBuilderText(lib, a) == Completed(Err(
      if a.dasGetAssetProof.Some? then ProofFromDasNotImplemented.Message()
      else Required(Proof).Message()))
  {
    ParsePartiesChecks(lib, a);
    var r := TransferBuilder(lib, a);
    if a.dasGetAssetProof.Some? {
      assert r == Completed(Err(ProofFromDasNotImplemented));
    } else {
      assert r == Completed(Err(Required(Proof)));
    }
  }

  // ---------------------------------------------------------------------------
  // Lines 186-194: the program-crate instruction becomes an SDK instruction.

  function ToSdkAccountMeta(meta: ProgramAccountMeta): SdkAccountMeta {
    SdkAccountMeta(meta.pubkey, meta.isSigner, meta.isWritable)
  }

  /** Program id, account order, each account's flags and the data bytes are
      kept. */
  function ToSdkInstruction(ix: ProgramInstruction): (r: SdkInstruction)
    ensures r.programId == ix.programId && r.data == ix.data
    ensures |r.accounts| == |ix.accounts|
    ensures forall i :: 0 <= i < |ix.accounts| ==>
      && r.accounts[i].pubkey == ix.accounts[i].pubkey
      && r.accounts[i].isSigner == ix.accounts[i].isSigner
      && r.accounts[i].isWritable == ix.accounts[i].isWritable
  {
    SdkInstruction(
      ix.programId,
      seq(|ix.accounts|, i requires 0 <= i < |ix.accounts| => ToSdkAccountMeta(ix.accounts[i])),
      ix.data)
  }

  /** The reverse direction, an SDK instruction seen by the program crate. */
  function ToProgramInstruction(ix: SdkInstruction): (r: ProgramInstruction)
    ensures |r.accounts| == |ix.accounts|
  {
    ProgramInstruction(
      ix.programId,
      seq(|ix.accounts|, i requires 0 <= i < |ix.accounts| =>
        ProgramAccountMeta(ix.accounts[i].pubkey, ix.accounts[i].isSigner, ix.accounts[i].isWritable)),
      ix.data)
  }

  /** The conversion loses nothing: it is undone by the reverse conversion,
      in both directions. */
  lemma ToSdkInstructionRoundTrip(ix: ProgramInstruction, sdk: SdkInstruction)
    ensures ToProgramInstruction(ToSdkInstruction(ix)) == ix
    ensures ToSdkInstruction(ToProgramInstruction(sdk)) == sdk
  {
    assert ToProgramInstruction(ToSdkInstruction(ix)).accounts == ix.accounts;
    assert ToSdkInstruction(ToProgramInstruction(sdk)).accounts == sdk.accounts;
  }
}
