/** The Solana library values the builders handle: public keys, keypairs,
    account metas and instructions, plus the library operations the model
    cannot see into, passed in as a `Library` value. */
module Sdk {
  import opened Wrappers
  import opened Numeric
  import Base58

  /** A public key is 32 bytes in both the program and the SDK crate;
      `new_from_array(k.to_bytes())` between the two is the identity. */
  type Pubkey = Bytes32

  /** An Ed25519 keypair: the 32-byte secret and the 32-byte public key. */
  datatype Keypair = Keypair(secret: Bytes32, pubkey: Pubkey)

  /** The number of bytes a character takes in UTF-8. */
  function Utf8Width(c: char): nat {
    if c as int < 0x80 then 1 else if c as int < 0x800 then 2 else if c as int < 0x1_0000 then 3 else 4
  }

  /** `str::len()`: the length of a string's UTF-8 encoding, in bytes. */
  function Utf8Length(s: string): (n: nat)
    ensures n >= |s|
  {
    if |s| == 0 then 0 else Utf8Width(s[0]) + Utf8Length(s[1..])
  }

  /** Base58 text is ASCII, one byte per character. */
  lemma {:induction false} Base58Length(s: string)
    requires Base58.IsBase58(s)
    ensures Utf8Length(s) == |s|
  {
    if |s| > 0 {
      assert Base58.IsBase58Char(s[0]);
      assert Base58.IsBase58(s[1..]) by {
        forall i | 0 <= i < |s[1..]| ensures Base58.IsBase58Char(s[1..][i]) {
          assert s[1..][i] == s[i + 1];
        }
      }
      Base58Length(s[1..]);
    }
  }

  /** `MAX_BASE58_LEN`: the longest string `Pubkey::from_str` tries to decode. */
  const MaxBase58Len: nat := 44

  /** A string of more than 44 bytes is never the base58 text of 32 bytes, so
      the length pre-check of `Pubkey::from_str` never changes its answer. */
  lemma LongStringsAreNotKeys(s: string)
    requires Utf8Length(s) > MaxBase58Len
    ensures Base58.Decode(s).Err? || |Base58.Decode(s).value| > 32
  {
    if Base58.IsBase58(s) {
      Base58Length(s);
      Base58.LongDecodesLong(s);
    }
  }

  /** `Pubkey::from_str`: strings longer than 44 bytes are refused outright;
      the rest must be base58 that decodes to exactly 32 bytes. */
  function PubkeyFromStr(s: string): (r: Option<Pubkey>)
    ensures r.Some? <==> Base58.Decode(s).Ok? && |Base58.Decode(s).value| == 32
    ensures r.Some? ==> r.value == Base58.Decode(s).value
  {
    if Utf8Length(s) > MaxBase58Len then LongStringsAreNotKeys(s); None
    else
      match Base58.Decode(s)
      case Ok(bytes) => if |bytes| == 32 then Some(bytes) else None
      case Err(_) => None
  }

  /** `Pubkey::to_string()`. */
  function PubkeyToString(k: Pubkey): string {
    Base58.Encode(k)
  }

  /** Every key parses back from its string form. */
  lemma PubkeyRoundTrip(k: Pubkey)
    ensures PubkeyFromStr(PubkeyToString(k)) == Some(k)
  {
    Base58.DecodeEncode(k);
  }

  /** A string with a character outside the base58 alphabet is never a key. */
  lemma PubkeyRejectsNonAlphabet(s: string, i: nat)
    requires i < |s| && !Base58.IsBase58Char(s[i])
    ensures PubkeyFromStr(s) == None
  {
  }

  /** The library operations whose insides are cryptography:
      - `keypairFromBytes` is `Keypair::from_bytes`, which accepts a 64-byte
        secret||public pair only when it is a valid Ed25519 keypair; its error
        is the library's error text;
      - `findTreeConfigPda` is `TreeConfig::find_pda(merkle_tree).0`, the
        program-derived address of the tree's config account. */
  datatype Library = Library(
    keypairFromBytes: seq<byte> -> Result<Keypair, string>,
    findTreeConfigPda: Pubkey -> Pubkey)
  {
    /** The length contract of `Keypair::from_bytes`: it succeeds only on 64
        bytes, the secret is the first half of them and the public key the second. */
    ghost predicate Valid() {
      forall bytes: seq<byte> {:trigger keypairFromBytes(bytes)} ::
        keypairFromBytes(bytes).Ok? ==>
          && |bytes| == 64
          && keypairFromBytes(bytes).value.secret == bytes[..32]
          && keypairFromBytes(bytes).value.pubkey == bytes[32..]
    }
  }

  /** `solana_program::instruction::AccountMeta`. */
  datatype ProgramAccountMeta = ProgramAccountMeta(pubkey: Pubkey, isSigner: bool, isWritable: bool)

  /** `solana_program::instruction::Instruction`. */
  datatype ProgramInstruction =
    ProgramInstruction(programId: Pubkey, accounts: seq<ProgramAccountMeta>, data: seq<byte>)

  /** `solana_sdk::instruction::AccountMeta`. */
  datatype SdkAccountMeta = SdkAccountMeta(pubkey: Pubkey, isSigner: bool, isWritable: bool)

  /** `solana_sdk::instruction::Instruction`. */
  datatype SdkInstruction =
    SdkInstruction(programId: Pubkey, accounts: seq<SdkAccountMeta>, data: seq<byte>)
}
