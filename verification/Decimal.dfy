/** Decimal numerals as ASCII bytes. */
module Decimal {
  import opened Bytes

  /** Limits of the 64-bit targets the gateway and the client are built for. */
  const USIZE: nat := 0x1_0000_0000_0000_0000
  const ISIZE_MAX: nat := 0x7fff_ffff_ffff_ffff

  predicate IsDigit(b: byte) {
    48 <= b <= 57
  }

  predicate AllDigits(s: seq<byte>) {
    forall i | 0 <= i < |s| :: IsDigit(s[i])
  }

  /** `n.to_string()` */
  function Digits(n: nat): (s: seq<byte>)
    ensures s != [] && AllDigits(s)
  {
    if n < 10 then [48 + n] else Digits(n / 10) + [48 + n % 10]
  }

  function Value(s: seq<byte>): nat
    requires AllDigits(s)
  {
    if s == [] then 0
    else
      assert IsDigit(s[|s| - 1]);
      10 * Value(s[..|s| - 1]) + (s[|s| - 1] as int - 48)
  }

  lemma {:induction false} ValueOfDigits(n: nat)
    ensures Value(Digits(n)) == n
  {
    if 10 <= n {
      ValueOfDigits(n / 10);
      assert Digits(n)[..|Digits(n)| - 1] == Digits(n / 10);
    }
  }

  function Pow10(k: nat): nat {
    if k == 0 then 1 else 10 * Pow10(k - 1)
  }

  lemma Shifted(v: nat, n: nat)
    ensures v * Pow10(n + 1) == 10 * (v * Pow10(n))
  {}

  /** Digits count by their place, the first for most. */
  lemma {:induction false} ValueConcat(a: seq<byte>, b: seq<byte>)
    requires AllDigits(a) && AllDigits(b)
    ensures AllDigits(a + b) && Value(a + b) == Value(a) * Pow10(|b|) + Value(b)
    decreases |b|
  {
    if b == [] {
      assert a + b == a;
    } else {
      var n := |b| - 1;
      ValueConcat(a, b[..n]);
      assert (a + b)[..|a| + n] == a + b[..n];
      Shifted(Value(a), n);
      hide Pow10;
    }
  }

  /** One digit stands for itself; a longer numeral does not begin with 0. */
  lemma {:induction false} DigitsAreCanonical(n: nat)
    ensures n < 10 ==> Digits(n) == [48 + n] && Value([48 + n]) == n
    ensures 10 <= n ==> Digits(n)[0] != 48
  {
    if n < 10 {
      assert [48 + n][..0] == [];
      assert Value([]) == 0;
    } else {
      DigitsAreCanonical(n / 10);
    }
  }

  lemma {:induction false} DigitsAtMost(n: nat, k: nat)
    requires n < Pow10(k) && 0 < k
    ensures |Digits(n)| <= k
  {
    if 10 <= n {
      DigitsAtMost(n / 10, k - 1);
    }
  }

  lemma {:induction false} DigitsAbove(n: nat, k: nat)
    requires Pow10(k) <= n
    ensures k < |Digits(n)|
  {
    if 0 < k {
      DigitsAbove(n / 10, k - 1);
    }
  }

  /** How many digits `s` begins with. */
  function DigitRun(s: seq<byte>): (k: nat)
    ensures k <= |s| && AllDigits(s[..k])
    ensures k < |s| ==> !IsDigit(s[k])
  {
    if s == [] || !IsDigit(s[0]) then 0
    else
      var k := 1 + DigitRun(s[1..]);
      assert s[..k] == [s[0]] + s[1..][..k - 1];
      k
  }

  /** The run is the only prefix of digits that a non-digit, or nothing, follows. */
  lemma {:induction false} DigitRunIs(s: seq<byte>, k: nat)
    requires k <= |s| && AllDigits(s[..k])
    requires k < |s| ==> !IsDigit(s[k])
    ensures DigitRun(s) == k
  {
    assert forall i | 0 <= i < k :: s[..k][i] == s[i] && IsDigit(s[i]);
    if s != [] && IsDigit(s[0]) {
      assert s[1..][..k - 1] == s[..k][1..];
      DigitRunIs(s[1..], k - 1);
    }
  }
}
