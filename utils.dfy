/** The helpers of the native crate: `decode_proof`, which turns the proof path
    of a compressed asset (base58 strings) into 32-byte nodes and aborts on any
    bad entry, and `from_str_const`, which parses a public key or aborts. */
module Utils {
  import opened Wrappers
  import opened Numeric
  import Base58
  import opened Sdk

  /** Why a helper aborts (a Rust panic). */
  datatype Panic =
    | ProofEntryNotBase58(entry: string, cause: Base58.DecodeError)  // `.unwrap()` on the decode error
    | ProofEntryWrongLength(entry: string, length: nat)              // `copy_from_slice` into `[0u8; 32]`
    | InvalidPublicKey(text: string)                                 // `.expect(..)` in `from_str_const`

  /** What `decode_proof` does with one entry. */
  function DecodeEntry(s: string): (r: Outcome<Bytes32, Panic>)
    ensures r.Completed? <==> Base58.Decode(s).Ok? && |Base58.Decode(s).value| == 32
    ensures r.Completed? ==> Base58.Decode(s) == Ok(r.value)
    ensures r.Panicked? && Base58.Decode(s).Err? ==> r.reason == ProofEntryNotBase58(s, Base58.Decode(s).error)
    ensures r.Panicked? && Base58.Decode(s).Ok? ==> r.reason == ProofEntryWrongLength(s, |Base58.Decode(s).value|)
  {
    match Base58.Decode(s)
    case Err(e) => Panicked(ProofEntryNotBase58(s, e))
    case Ok(bytes) =>
      if |bytes| != 32 then Panicked(ProofEntryWrongLength(s, |bytes|)) else Completed(bytes)
  }

  /** The decoded proof path, entry by entry from the front; the first entry
      that cannot be decoded aborts the whole call. */
  function DecodeProofSpec(base58Strings: seq<string>): Outcome<seq<Bytes32>, Panic> {
    if |base58Strings| == 0 then Completed([])
    else
      match DecodeEntry(base58Strings[0])
      case Panicked(p) => Panicked(p)
      case Completed(node) =>
        match DecodeProofSpec(base58Strings[1..])
        case Panicked(p) => Panicked(p)
        case Completed(rest) => Completed([node] + rest)
  }

  /** Running one decode after another: the first abort wins, otherwise the
      lists are joined. */
  function AndThen(first: Outcome<seq<Bytes32>, Panic>, second: Outcome<seq<Bytes32>, Panic>)
    : Outcome<seq<Bytes32>, Panic>
  {
    match first
    case Panicked(p) => Panicked(p)
    case Completed(xs) =>
      match second
      case Panicked(p) => Panicked(p)
      case Completed(ys) => Completed(xs + ys)
  }

  /** Decoding a concatenation is decoding the two halves in turn. */
  lemma {:induction false} DecodeProofConcat(a: seq<string>, b: seq<string>)
    ensures DecodeProofSpec(a + b) == AndThen(DecodeProofSpec(a), DecodeProofSpec(b))
  {
    if |a| == 0 {
      assert a + b == b;
      match DecodeProofSpec(b)
      case Panicked(_) =>
      case Completed(ys) => assert [] + ys == ys;
    } else {
      assert (a + b)[0] == a[0];
      assert (a + b)[1..] == a[1..] + b;
      DecodeProofConcat(a[1..], b);
      match DecodeProofSpec(a[1..])
      case Panicked(_) =>
      case Completed(xs) =>
        match DecodeProofSpec(b)
        case Panicked(_) =>
        case Completed(ys) =>
          if DecodeEntry(a[0]).Completed? {
            assert [DecodeEntry(a[0]).value] + (xs + ys) == ([DecodeEntry(a[0]).value] + xs) + ys;
          }
    }
  }

  lemma PrefixExtends(base58Strings: seq<string>, i: nat, decoded: seq<Bytes32>)
    requires i < |base58Strings|
    requires DecodeProofSpec(base58Strings[..i]) == Completed(decoded)
    requires DecodeEntry(base58Strings[i]).Completed?
    ensures DecodeProofSpec(base58Strings[..i + 1])
      == Completed(decoded + [DecodeEntry(base58Strings[i]).value])
  {
    var entry, node := [base58Strings[i]], DecodeEntry(base58Strings[i]).value;
    assert entry[1..] == [];
    assert [node] + [] == [node];
    assert DecodeProofSpec(entry) == Completed([node]);
    DecodeProofConcat(base58Strings[..i], entry);
    assert base58Strings[..i + 1] == base58Strings[..i] + entry;
  }

  lemma PrefixPanics(base58Strings: seq<string>, i: nat)
    requires i < |base58Strings|
    requires DecodeProofSpec(base58Strings[..i]).Completed?
    requires DecodeEntry(base58Strings[i]).Panicked?
    ensures DecodeProofSpec(base58Strings) == Panicked(DecodeEntry(base58Strings[i]).reason)
  {
    DecodeProofConcat(base58Strings[..i], base58Strings[i..]);
    assert base58Strings == base58Strings[..i] + base58Strings[i..];
    assert base58Strings[i..][0] == base58Strings[i];
  }

  /** `decode_proof(base58_strings)` (src/utils.rs). */
  method DecodeProof(base58Strings: seq<string>) returns (result: Outcome<seq<Bytes32>, Panic>)
    ensures result == DecodeProofSpec(base58Strings)
  {
    var decoded: seq<Bytes32> := [];
    var i := 0;
    while i < |base58Strings|
      invariant 0 <= i <= |base58Strings|
      invariant DecodeProofSpec(base58Strings[..i]) == Completed(decoded)
    {
      var base58String := base58Strings[i];
      var bytes := Base58.Decode(base58String);
      if bytes.Err? {
        PrefixPanics(base58Strings, i);
        return Panicked(ProofEntryNotBase58(base58String, bytes.error));
      }
      if |bytes.value| != 32 {
        PrefixPanics(base58Strings, i);
        return Panicked(ProofEntryWrongLength(base58String, |bytes.value|));
      }
      var node := new byte[32](_ => 0);
      forall k | 0 <= k < 32 {
        node[k] := bytes.value[k];
      }
      assert node[..] == bytes.value;
      PrefixExtends(base58Strings, i, decoded);
      decoded := decoded + [node[..]];
      i := i + 1;
    }
    assert base58Strings[..i] == base58Strings;
    return Completed(decoded);
  }

  /** A completed decode has one node per entry, in input order, each exactly
      the 32 bytes its entry decodes to; the empty path decodes to the empty list. */
  lemma {:induction false} DecodeProofEntries(base58Strings: seq<string>)
    requires DecodeProofSpec(base58Strings).Completed?
    ensures |DecodeProofSpec(base58Strings).value| == |base58Strings|
    ensures forall i :: 0 <= i < |base58Strings| ==>
      Base58.Decode(base58Strings[i]) == Ok(DecodeProofSpec(base58Strings).value[i])
  {
    if |base58Strings| > 0 {
      DecodeProofEntries(base58Strings[1..]);
      var nodes := DecodeProofSpec(base58Strings).value;
      forall i | 0 <= i < |base58Strings|
        ensures Base58.Decode(base58Strings[i]) == Ok(nodes[i])
      {
        if i > 0 {
          assert base58Strings[i] == base58Strings[1..][i - 1];
        }
      }
    }
  }

  /** The decode completes exactly when every entry is base58 of exactly 32 bytes. */
  lemma {:induction false} DecodeProofCompletes(base58Strings: seq<string>)
    ensures DecodeProofSpec(base58Strings).Completed? <==>
      forall i :: 0 <= i < |base58Strings| ==> DecodeEntry(base58Strings[i]).Completed?
  {
    if |base58Strings| > 0 {
      DecodeProofCompletes(base58Strings[1..]);
      assert forall i :: 1 <= i < |base58Strings| ==> base58Strings[i] == base58Strings[1..][i - 1];
    }
  }

  /** An abort is caused by the first bad entry: every earlier entry decodes,
      and the reason names that entry (not base58, or not 32 bytes long). No
      partial list is returned. */
  lemma {:induction false} DecodeProofAborts(base58Strings: seq<string>)
    requires DecodeProofSpec(base58Strings).Panicked?
    ensures exists i :: (
      && 0 <= i < |base58Strings|
      && (forall j :: 0 <= j < i ==> DecodeEntry(base58Strings[j]).Completed?)
      && DecodeEntry(base58Strings[i]) == Panicked(DecodeProofSpec(base58Strings).reason))
  {
    var head := DecodeEntry(base58Strings[0]);
    if head.Completed? {
      DecodeProofAborts(base58Strings[1..]);
      var k :| && 0 <= k < |base58Strings[1..]|
               && (forall j :: 0 <= j < k ==> DecodeEntry(base58Strings[1..][j]).Completed?)
               && DecodeEntry(base58Strings[1..][k]) == Panicked(DecodeProofSpec(base58Strings[1..]).reason);
      assert forall j :: 1 <= j < k + 1 ==> base58Strings[j] == base58Strings[1..][j - 1];
      assert base58Strings[k + 1] == base58Strings[1..][k];
    }
  }

  /** Proof paths written out with base58 decode back to the nodes. */
  lemma {:induction false} DecodeProofOfEncoded(nodes: seq<Bytes32>)
    ensures DecodeProofSpec(seq(|nodes|, i requires 0 <= i < |nodes| => Base58.Encode(nodes[i])))
      == Completed(nodes)
  {
    var strings := seq(|nodes|, i requires 0 <= i < |nodes| => Base58.Encode(nodes[i]));
    if |nodes| > 0 {
      Base58.DecodeEncode(nodes[0]);
      DecodeProofOfEncoded(nodes[1..]);
      assert strings[1..] == seq(|nodes[1..]|, i requires 0 <= i < |nodes[1..]| => Base58.Encode(nodes[1..][i]));
      assert nodes == [nodes[0]] + nodes[1..];
    }
  }

  /** `Pubkey::from_str_const(s)` (src/utils.rs): the key, or an abort. It
      completes exactly when the string is base58 for exactly 32 bytes, and the
      key is those bytes. */
  function FromStrConst(s: string): (r: Outcome<Pubkey, Panic>)
    ensures r.Completed? <==> Base58.Decode(s).Ok? && |Base58.Decode(s).value| == 32
    ensures r.Completed? ==> Base58.Decode(s) == Ok(r.value)
    ensures r.Panicked? ==> r.reason == InvalidPublicKey(s)
  {
    match PubkeyFromStr(s)
    case Some(k) => Completed(k)
    case None => Panicked(InvalidPublicKey(s))
  }

  /** The strings that parse to a key are exactly the string forms of keys:
      `from_str_const` and `to_string` are inverse. */
  lemma FromStrConstKeyStrings(s: string, k: Pubkey)
    ensures FromStrConst(s) == Completed(k) <==> s == PubkeyToString(k)
  {
    PubkeyRoundTrip(k);
    if FromStrConst(s) == Completed(k) {
      Base58.EncodeDecode(s);
    }
  }

  /** A string with a character outside the base58 alphabet aborts. */
  lemma FromStrConstRejectsNonAlphabet(s: string, i: nat)
    requires i < |s| && !Base58.IsBase58Char(s[i])
    ensures FromStrConst(s) == Panicked(InvalidPublicKey(s))
  {
  }
}
