/** Big-endian positional notation over an arbitrary base: the arithmetic that
    base58 decoding (base 58 digits into base 256 bytes) and encoding rest on. */
module Positional {

  /** True when every digit is below the base. */
  predicate IsDigits(ds: seq<nat>, base: nat) {
    forall i :: 0 <= i < |ds| ==> ds[i] < base
  }

  /** True when the digit string is empty or does not start with a zero. */
  predicate NoLeadingZero(ds: seq<nat>) {
    |ds| == 0 || ds[0] != 0
  }

  /** `k` zero digits. */
  function Zeros(k: nat): (zs: seq<nat>)
    ensures |zs| == k
    ensures forall i :: 0 <= i < k ==> zs[i] == 0
  {
    seq(k, _ => 0)
  }

  /** The number of zero digits a digit string starts with. */
  function LeadingZeros(ds: seq<nat>): (k: nat)
    ensures k <= |ds|
    ensures forall i :: 0 <= i < k ==> ds[i] == 0
    ensures k < |ds| ==> ds[k] != 0
  {
    if |ds| > 0 && ds[0] == 0 then 1 + LeadingZeros(ds[1..]) else 0
  }

  /** The number a big-endian digit string denotes. */
  function Value(ds: seq<nat>, base: nat): nat {
    if |ds| == 0 then 0 else Value(ds[..|ds| - 1], base) * base + ds[|ds| - 1]
  }

  /** The shortest big-endian digit string denoting `n` (empty for zero). */
  function ToDigits(n: nat, base: nat): (ds: seq<nat>)
    requires base >= 2
    ensures IsDigits(ds, base)
    ensures NoLeadingZero(ds)
    ensures ds == [] <==> n == 0
    decreases n
  {
    if n == 0 then [] else ToDigits(n / base, base) + [n % base]
  }

  lemma MulDistributes(a: int, b: int, c: int)
    ensures (a - b) * c == a * c - b * c
  {
  }

  lemma MulAtLeast(x: int, base: nat)
    requires x >= 1
    ensures x * base >= base
  {
    assert x * base == (x - 1) * base + base;
  }

  /** Euclidean division recovers the quotient and remainder it was built from. */
  lemma DivModUnique(q: nat, r: nat, base: nat)
    requires r < base
    ensures (q * base + r) / base == q
    ensures (q * base + r) % base == r
  {
    var n := q * base + r;
    var d, m := n / base, n % base;
    assert n == d * base + m && 0 <= m < base;
    if d > q {
      MulAtLeast(d - q, base);
      MulDistributes(d, q, base);
      assert false;
    } else if d < q {
      MulAtLeast(q - d, base);
      MulDistributes(q, d, base);
      assert false;
    }
  }

  lemma DivModSplit(n: nat, base: nat)
    requires base >= 1
    ensures n == (n / base) * base + n % base
  {
  }

  lemma DivSmaller(n: nat, base: nat)
    requires base >= 2 && n > 0
    ensures n / base < n
  {
  }

  /** Writing a number out and reading it back gives the number. */
  lemma {:induction false} ValueOfToDigits(n: nat, base: nat)
    requires base >= 2
    ensures Value(ToDigits(n, base), base) == n
    decreases n
  {
    if n > 0 {
      var q, r := n / base, n % base;
      DivSmaller(n, base);
      var ds, front := ToDigits(n, base), ToDigits(q, base);
      assert Value(ds, base) == Value(front, base) * base + r by {
        assert ds[..|ds| - 1] == front;
      }
      ValueOfToDigits(q, base);
      DivModSplit(n, base);
    }
  }

  /** A digit string that starts with a non-zero digit denotes a positive number. */
  lemma {:induction false} ValuePositive(ds: seq<nat>, base: nat)
    requires base >= 1
    requires |ds| > 0 && ds[0] != 0
    ensures Value(ds, base) > 0
  {
    if |ds| > 1 {
      ValuePositive(ds[..|ds| - 1], base);
    }
  }

  /** Reading a canonical digit string and writing the number back gives the string. */
  lemma {:induction false} ToDigitsOfValue(ds: seq<nat>, base: nat)
    requires base >= 2
    requires IsDigits(ds, base)
    requires NoLeadingZero(ds)
    ensures ToDigits(Value(ds, base), base) == ds
  {
    if |ds| > 0 {
      var front, last := ds[..|ds| - 1], ds[|ds| - 1];
      ValuePositive(ds, base);
      DivModUnique(Value(front, base), last, base);
      ToDigitsOfValue(front, base);
      assert ds == front + [last];
    }
  }

  /** Leading zero digits do not change the number a string denotes. */
  lemma {:induction false} ValueOfZerosPrefix(k: nat, ds: seq<nat>, base: nat)
    ensures Value(Zeros(k) + ds, base) == Value(ds, base)
  {
    if |ds| == 0 {
      if k > 0 {
        assert (Zeros(k) + ds)[..k - 1] == Zeros(k - 1) + ds;
        ValueOfZerosPrefix(k - 1, ds, base);
      }
    } else {
      var front := ds[..|ds| - 1];
      assert (Zeros(k) + ds)[..|Zeros(k) + ds| - 1] == Zeros(k) + front;
      ValueOfZerosPrefix(k, front, base);
    }
  }

  /** A digit string splits into its leading zeros and a canonical remainder. */
  lemma SplitLeadingZeros(ds: seq<nat>)
    ensures ds == Zeros(LeadingZeros(ds)) + ds[LeadingZeros(ds)..]
    ensures NoLeadingZero(ds[LeadingZeros(ds)..])
  {
    var k := LeadingZeros(ds);
    assert ds[..k] == Zeros(k);
    assert ds == ds[..k] + ds[k..];
  }

  /** The leading zeros of a string that is `k` zeros followed by a canonical string. */
  lemma {:induction false} LeadingZerosOfZerosPrefix(k: nat, ds: seq<nat>)
    requires NoLeadingZero(ds)
    ensures LeadingZeros(Zeros(k) + ds) == k
  {
    if k > 0 {
      assert (Zeros(k) + ds)[1..] == Zeros(k - 1) + ds;
      LeadingZerosOfZerosPrefix(k - 1, ds);
    } else {
      assert Zeros(k) + ds == ds;
    }
  }

  /** `base` to the power `e`. */
  function Pow(base: nat, e: nat): nat {
    if e == 0 then 1 else base * Pow(base, e - 1)
  }

  lemma {:induction false} PowMonotone(base: nat, i: nat, j: nat)
    requires base >= 1 && i <= j
    ensures Pow(base, i) <= Pow(base, j)
    decreases j
  {
    if i < j {
      PowMonotone(base, i, j - 1);
      MulDistributes(base, 1, Pow(base, j - 1));
    }
  }

  lemma {:induction false} PowAdd(base: nat, i: nat, j: nat)
    ensures Pow(base, i + j) == Pow(base, i) * Pow(base, j)
    decreases j
  {
    if j > 0 {
      PowAdd(base, i, j - 1);
      var a, b := Pow(base, i), Pow(base, j - 1);
      assert base * (a * b) == a * (base * b);
    }
  }

  lemma MulMonotone(a: nat, b: nat, c: nat, d: nat)
    requires a >= b && c >= d
    ensures a * c >= b * d
  {
    assert a * c >= b * c;
    assert b * c >= b * d;
  }

  lemma MulBelow(v: nat, p: nat, last: nat, base: nat)
    requires v < p && last < base
    ensures v * base + last < p * base
  {
    MulDistributes(p, v, base);
    MulAtLeast(p - v, base);
  }

  /** An `n`-digit string denotes a number below `base^n`. */
  lemma {:induction false} ValueBelowPow(ds: seq<nat>, base: nat)
    requires IsDigits(ds, base)
    ensures Value(ds, base) < Pow(base, |ds|)
  {
    if |ds| > 0 {
      var front := ds[..|ds| - 1];
      ValueBelowPow(front, base);
      MulBelow(Value(front, base), Pow(base, |front|), ds[|ds| - 1], base);
    }
  }

  /** An `n`-digit string that starts with a non-zero digit denotes at least `base^(n-1)`. */
  lemma {:induction false} ValueAtLeastPow(ds: seq<nat>, base: nat)
    requires base >= 1
    requires |ds| > 0 && ds[0] != 0
    ensures Value(ds, base) >= Pow(base, |ds| - 1)
  {
    var front := ds[..|ds| - 1];
    if |ds| == 1 {
      assert front == [];
    } else {
      ValueAtLeastPow(front, base);
      assert Value(front, base) * base >= Pow(base, |front| - 1) * base;
    }
  }

  /** A number of at least `base^e` needs more than `e` digits. */
  lemma ToDigitsLength(n: nat, base: nat, e: nat)
    requires base >= 2 && n >= Pow(base, e)
    ensures |ToDigits(n, base)| > e
  {
    var ds := ToDigits(n, base);
    ValueOfToDigits(n, base);
    ValueBelowPow(ds, base);
    if |ds| <= e {
      PowMonotone(base, |ds|, e);
      assert false;
    }
  }
}
