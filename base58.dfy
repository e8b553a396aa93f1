/** Base58 with the Bitcoin alphabet, as the `bs58` crate decodes it for the
    builders: every character must be one of the 58 alphabet characters, each
    leading '1' stands for one zero byte, and the remaining characters are a
    base-58 number written out as the shortest big-endian byte string. */
module Base58 {
  import opened Wrappers
  import opened Numeric
  import Positional

  /** The Bitcoin alphabet, written as the six runs of characters it keeps. */
  const Alphabet: string :=
    "123456789" + "ABCDEFGH" + "JKLMN" + "PQRSTUVWXYZ" + "abcdefghijk" + "mnopqrstuvwxyz"

  /** The alphabet: digits and ASCII letters except '0', 'O', 'I' and 'l'. */
  predicate IsBase58Char(c: char) {
    || ('1' <= c <= '9')
    || ('A' <= c <= 'H')
    || ('J' <= c <= 'N')
    || ('P' <= c <= 'Z')
    || ('a' <= c <= 'k')
    || ('m' <= c <= 'z')
  }

  predicate IsBase58(s: string) {
    forall i :: 0 <= i < |s| ==> IsBase58Char(s[i])
  }

  /** The digit an alphabet character stands for: its position in the alphabet. */
  function DigitOf(c: char): (d: nat)
    requires IsBase58Char(c)
    ensures d < 58
  {
    if c <= '9' then c as int - '1' as int
    else if c <= 'H' then 9 + (c as int - 'A' as int)
    else if c <= 'N' then 17 + (c as int - 'J' as int)
    else if c <= 'Z' then 22 + (c as int - 'P' as int)
    else if c <= 'k' then 33 + (c as int - 'a' as int)
    else 44 + (c as int - 'm' as int)
  }

  /** The alphabet character for a digit. */
  function CharOf(d: nat): (c: char)
    requires d < 58
    ensures IsBase58Char(c)
    ensures DigitOf(c) == d
  {
    if d < 9 then ('1' as int + d) as char
    else if d < 17 then ('A' as int + (d - 9)) as char
    else if d < 22 then ('J' as int + (d - 17)) as char
    else if d < 33 then ('P' as int + (d - 22)) as char
    else if d < 44 then ('a' as int + (d - 33)) as char
    else ('m' as int + (d - 44)) as char
  }

  /** The character ranges above are exactly the alphabet, in order. */
  lemma AlphabetIsCharOf()
    ensures |Alphabet| == 58
    ensures forall d :: 0 <= d < 58 ==> Alphabet[d] == CharOf(d)
  {
    forall d | 0 <= d < 58 ensures Alphabet[d] == CharOf(d) {
      if d < 9 { assert Alphabet[d] == "123456789"[d]; }
      else if d < 17 { assert Alphabet[d] == "ABCDEFGH"[d - 9]; }
      else if d < 22 { assert Alphabet[d] == "JKLMN"[d - 17]; }
      else if d < 33 { assert Alphabet[d] == "PQRSTUVWXYZ"[d - 22]; }
      else if d < 44 { assert Alphabet[d] == "abcdefghijk"[d - 33]; }
      else { assert Alphabet[d] == "mnopqrstuvwxyz"[d - 44]; }
    }
  }

  /** A character is accepted exactly when it occurs in the alphabet, and then
      its digit is its position there. */
  lemma AlphabetMembership(c: char)
    ensures IsBase58Char(c) <==> c in Alphabet
    ensures IsBase58Char(c) ==> Alphabet[DigitOf(c)] == c
  {
    AlphabetIsCharOf();
    if c in Alphabet {
      var d :| 0 <= d < |Alphabet| && Alphabet[d] == c;
      assert c == CharOf(d);
    }
  }

  /** Each alphabet character is the character of its own digit. */
  lemma CharOfDigitOf(c: char)
    requires IsBase58Char(c)
    ensures CharOf(DigitOf(c)) == c
  {
  }

  /** The errors of `bs58::decode(..).into_vec()`, at the first offending character. */
  datatype DecodeError =
    | InvalidCharacter(character: char, index: nat)
    | NonAsciiCharacter(index: nat)

  /** The position of the first non-alphabet character at or after `from`, if any. */
  function FirstInvalid(s: string, from: nat): (r: Option<nat>)
    requires from <= |s|
    ensures r.Some? ==> from <= r.value < |s| && !IsBase58Char(s[r.value])
    ensures r.Some? ==> forall i :: from <= i < r.value ==> IsBase58Char(s[i])
    ensures r.None? <==> forall i :: from <= i < |s| ==> IsBase58Char(s[i])
    decreases |s| - from
  {
    if from == |s| then None
    else if !IsBase58Char(s[from]) then Some(from)
    else FirstInvalid(s, from + 1)
  }

  function DigitsOf(s: string): (ds: seq<nat>)
    requires IsBase58(s)
    ensures |ds| == |s|
    ensures forall i :: 0 <= i < |s| ==> ds[i] == DigitOf(s[i])
    ensures Positional.IsDigits(ds, 58)
  {
    seq(|s|, i requires 0 <= i < |s| => DigitOf(s[i]))
  }

  function CharsOf(ds: seq<nat>): (s: string)
    requires Positional.IsDigits(ds, 58)
    ensures |s| == |ds|
    ensures forall i :: 0 <= i < |ds| ==> s[i] == CharOf(ds[i])
    ensures IsBase58(s)
  {
    seq(|ds|, i requires 0 <= i < |ds| => CharOf(ds[i]))
  }

  function AsBytes(ds: seq<nat>): (bs: seq<byte>)
    requires Positional.IsDigits(ds, 256)
    ensures bs == ds
  {
    seq(|ds|, i requires 0 <= i < |ds| => ds[i] as byte)
  }

  /** `bs58::decode(s).into_vec()`. */
  function Decode(s: string): (r: Result<seq<byte>, DecodeError>)
    ensures r.Err? <==> !IsBase58(s)
    ensures r.Err? ==> r.error.index < |s| && !IsBase58Char(s[r.error.index])
    ensures r.Err? ==> forall i :: 0 <= i < r.error.index ==> IsBase58Char(s[i])
    ensures r.Err? ==> (r.error.NonAsciiCharacter? <==> s[r.error.index] as int >= 128)
    ensures r.Err? && r.error.InvalidCharacter? ==> r.error.character == s[r.error.index]
  {
    match FirstInvalid(s, 0)
    case Some(i) =>
      Err(if (s[i] as int) < 128 then InvalidCharacter(s[i], i) else NonAsciiCharacter(i))
    case None =>
      var ds := DigitsOf(s);
      Ok(AsBytes(Positional.Zeros(Positional.LeadingZeros(ds))
                 + Positional.ToDigits(Positional.Value(ds, 58), 256)))
  }

  /** `bs58::encode(bytes).into_string()`: each leading zero byte becomes a '1',
      the rest is the number the bytes denote, written in base 58. */
  function Encode(bytes: seq<byte>): (s: string)
    ensures IsBase58(s)
  {
    var z := Positional.LeadingZeros(bytes);
    CharsOf(Positional.Zeros(z) + Positional.ToDigits(Positional.Value(bytes, 256), 58))
  }

  /** Decoding undoes encoding, for every byte string. */
  lemma DecodeEncode(bytes: seq<byte>)
    ensures Decode(Encode(bytes)) == Ok(bytes)
  {
    var z := Positional.LeadingZeros(bytes);
    var rest := bytes[z..];
    Positional.SplitLeadingZeros(bytes);
    var v := Positional.Value(bytes, 256);
    Positional.ValueOfZerosPrefix(z, rest, 256);
    assert v == Positional.Value(rest, 256);
    var d := Positional.ToDigits(v, 58);
    var encoded := Positional.Zeros(z) + d;
    var s := Encode(bytes);
    assert s == CharsOf(encoded);
    assert DigitsOf(s) == encoded;
    Positional.LeadingZerosOfZerosPrefix(z, d);
    Positional.ValueOfZerosPrefix(z, d, 58);
    Positional.ValueOfToDigits(v, 58);
    Positional.ToDigitsOfValue(rest, 256);
    assert Positional.ToDigits(Positional.Value(encoded, 58), 256) == rest;
  }

  /** Encoding undoes decoding: a base58 string is the only string of its
      bytes, so every accepted string is the encoding of what it decodes to. */
  lemma EncodeDecode(s: string)
    requires IsBase58(s)
    ensures Encode(Decode(s).value) == s
  {
    var ds := DigitsOf(s);
    var k := Positional.LeadingZeros(ds);
    var rest := ds[k..];
    Positional.SplitLeadingZeros(ds);
    var n := Positional.Value(ds, 58);
    Positional.ValueOfZerosPrefix(k, rest, 58);
    var high := Positional.ToDigits(n, 256);
    var bytes := Decode(s).value;
    assert bytes == Positional.Zeros(k) + high;
    Positional.LeadingZerosOfZerosPrefix(k, high);
    Positional.ValueOfZerosPrefix(k, high, 256);
    Positional.ValueOfToDigits(n, 256);
    Positional.ToDigitsOfValue(rest, 58);
    var e := Encode(bytes);
    assert e == CharsOf(ds);
    forall i | 0 <= i < |s| ensures e[i] == s[i] {
      CharOfDigitOf(s[i]);
    }
  }

  /** Eleven base-58 digits carry more than eight bytes, `t` times over. */
  lemma {:induction false} BlocksOutweighBytes(t: nat)
    ensures Positional.Pow(58, 11 * t) >= Positional.Pow(256, 8 * t)
  {
    if t > 0 {
      BlocksOutweighBytes(t - 1);
      Positional.PowAdd(58, 11 * (t - 1), 11);
      Positional.PowAdd(256, 8 * (t - 1), 8);
      assert Positional.Pow(58, 11) >= Positional.Pow(256, 8);
      Positional.MulMonotone(Positional.Pow(58, 11 * (t - 1)), Positional.Pow(256, 8 * (t - 1)),
                             Positional.Pow(58, 11), Positional.Pow(256, 8));
    }
  }

  /** 58^(44-k) is at least 256^(32-k): 44 base-58 digits carry more than 32 bytes. */
  lemma {:induction false} DigitsOutweighBytes(k: nat)
    requires k <= 32
    ensures Positional.Pow(58, 44 - k) >= Positional.Pow(256, 32 - k)
  {
    if k == 0 {
      BlocksOutweighBytes(4);
    } else {
      DigitsOutweighBytes(k - 1);
      var a, b := Positional.Pow(58, 44 - k), Positional.Pow(256, 32 - k);
      assert 58 * a >= 256 * b;
    }
  }

  /** A base58 string of more than 44 characters decodes to more than 32 bytes. */
  lemma LongDecodesLong(s: string)
    requires IsBase58(s) && |s| > 44
    ensures |Decode(s).value| > 32
  {
    var ds := DigitsOf(s);
    var k := Positional.LeadingZeros(ds);
    var n := Positional.Value(ds, 58);
    assert |Decode(s).value| == k + |Positional.ToDigits(n, 256)|;
    if k <= 32 {
      var rest := ds[k..];
      Positional.SplitLeadingZeros(ds);
      Positional.ValueOfZerosPrefix(k, rest, 58);
      Positional.ValueAtLeastPow(rest, 58);
      Positional.PowMonotone(58, 44 - k, |rest| - 1);
      DigitsOutweighBytes(k);
      Positional.ToDigitsLength(n, 256, 32 - k);
    }
  }

  /** Decimal digits of a number, as `format!("{}", n)` writes it. */
  function NatToString(n: nat): string
    decreases n
  {
    var last := ['0' + (n % 10) as char];
    if n < 10 then last else NatToString(n / 10) + last
  }

  /** The `Display` text of a decode error. Rust prints the character with
      its Debug format; the escapes it uses for control characters are not modelled. */
  function ErrorText(e: DecodeError): string {
    match e
    case InvalidCharacter(c, i) =>
      "provided string contained invalid character '" + [c] + "' at byte " + NatToString(i)
    case NonAsciiCharacter(i) =>
      "provided string contained non-ascii character starting at byte " + NatToString(i)
  }
}
