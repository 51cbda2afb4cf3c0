/** The Luhn check on digit strings: the loop, the right-to-left formula, and what it detects. */
module Luhn {

  predicate IsDigit(c: char) { '0' <= c <= '9' }

  predicate AllDigits(s: string) { forall i :: 0 <= i < |s| ==> IsDigit(s[i]) }

  function Value(c: char): (d: int)
    requires IsDigit(c)
    ensures 0 <= d <= 9
  {
    c as int - '0' as int
  }

  /** A doubled digit with its own digits added. */
  function Doubled(d: int): int { if 2 * d > 9 then 2 * d - 9 else 2 * d }

  function Weight(d: int, doubled: bool): int { if doubled then Doubled(d) else d }

  /**
   * Annex B of ISO/IEC 7812-1: from the right, the last digit counts once, and from there every
   * second digit is doubled.
   */
  function Sum(s: string, doubled: bool): (r: int)
    requires AllDigits(s)
    ensures r >= 0
  {
    if s == "" then 0 else
    Weight(Value(s[|s| - 1]), doubled) + Sum(s[..|s| - 1], !doubled)
  }

  predicate Passes(s: string)
    requires AllDigits(s)
  {
    Sum(s, false) % 10 == 0
  }

  /** The left-to-right loop with its parity test; anything but a digit fails. */
  method LuhnCheck(pan: string) returns (ok: bool)
    ensures ok <==> AllDigits(pan) && Passes(pan)
  {
    var sum := 0;
    var parity := |pan| % 2;
    for i := 0 to |pan|
      invariant AllDigits(pan[..i])
      invariant sum == Sum(pan[..i], (i + 1) % 2 == parity)
    {
      if !IsDigit(pan[i]) { return false; }
      var d := pan[i] as int - '0' as int;
      if i % 2 == parity {
        d := d * 2;
        if d > 9 { d := d - 9; }
      }
      assert pan[..i + 1][..i] == pan[..i];
      sum := sum + d;
    }
    assert pan[..|pan|] == pan;
    ok := sum % 10 == 0;
  }

  /** The digit doubled is the one before the check digit. */
  lemma KnownNumbers()
    ensures AllDigits("18") && Passes("18") && AllDigits("81") && !Passes("81")
  {
    assert "18"[..1] == "1" && "81"[..1] == "8" && "1"[..0] == "" == "8"[..0];
    assert Sum("1", true) == 2 && Sum("8", true) == 7;
  }

  /** Whether position `i` of a string of length `n` is doubled. */
  predicate IsDoubled(n: int, i: int, doubled: bool) { ((n - 1 - i) % 2 == 0) == doubled }

  lemma ShiftedParity(n: int, i: int, doubled: bool)
    ensures IsDoubled(n + 1, i, doubled) == IsDoubled(n, i, !doubled)
    ensures IsDoubled(n + 1, n, doubled) == doubled
  {}

  /** Replacing one digit changes the sum by the difference of that position's weights. */
  lemma {:induction false} SumReplace(s: string, i: nat, c: char, doubled: bool)
    requires AllDigits(s) && i < |s| && IsDigit(c)
    ensures AllDigits(s[i := c])
    ensures Sum(s[i := c], doubled) == Sum(s, doubled)
      - Weight(Value(s[i]), IsDoubled(|s|, i, doubled)) + Weight(Value(c), IsDoubled(|s|, i, doubled))
    decreases |s|
  {
    hide Weight, IsDoubled, Value;
    var n := |s| - 1;
    var t := s[i := c];
    ShiftedParity(n, i, doubled);
    if i < n {
      SumReplace(s[..n], i, c, !doubled);
      assert t[..n] == s[..n][i := c];
    } else {
      assert t[..n] == s[..n];
    }
  }

  lemma WeightsDistinct(a: int, b: int, doubled: bool)
    requires 0 <= a <= 9 && 0 <= b <= 9 && a != b
    ensures (Weight(a, doubled) - Weight(b, doubled)) % 10 != 0
  {}

  /** Every change of a single digit is detected. */
  lemma DetectsSingleChange(s: string, i: nat, c: char)
    requires AllDigits(s) && Passes(s) && i < |s| && IsDigit(c) && c != s[i]
    ensures AllDigits(s[i := c]) && !Passes(s[i := c])
  {
    SumReplace(s, i, c, false);
    var w := IsDoubled(|s|, i, false);
    WeightsDistinct(Value(c), Value(s[i]), w);
    NotBothMultiples(Sum(s, false), Weight(Value(c), w) - Weight(Value(s[i]), w));
  }

  lemma NotBothMultiples(x: int, d: int)
    requires x % 10 == 0 && d % 10 != 0
    ensures (x + d) % 10 != 0
  {}

  /** `s` with the digits at `i` and `i + 1` exchanged. */
  function Swapped(s: string, i: nat): string
    requires i + 1 < |s|
  {
    s[i := s[i + 1]][i + 1 := s[i]]
  }

  lemma SwapWeights(a: int, b: int, first: bool)
    requires 0 <= a <= 9 && 0 <= b <= 9
    ensures (Weight(b, first) + Weight(a, !first) - Weight(a, first) - Weight(b, !first)) % 10 == 0
      <==> a == b || (a == 0 && b == 9) || (a == 9 && b == 0)
  {}

  /** A swap of neighbours in a valid string goes unnoticed exactly for equal digits and for 0 with 9. */
  lemma DetectsSwapsBut09(s: string, i: nat)
    requires AllDigits(s) && Passes(s) && i + 1 < |s|
    ensures AllDigits(Swapped(s, i))
    ensures Passes(Swapped(s, i)) <==>
      s[i] == s[i + 1] || (s[i] == '0' && s[i + 1] == '9') || (s[i] == '9' && s[i + 1] == '0')
  {
    hide Weight;
    var a, b, first := Value(s[i]), Value(s[i + 1]), IsDoubled(|s|, i, false);
    var d := Weight(b, first) + Weight(a, !first) - Weight(a, first) - Weight(b, !first);
    SwapSum(s, i);
    SwapWeights(a, b, first);
    if d % 10 != 0 { NotBothMultiples(Sum(s, false), d); }
  }

  lemma SwapSum(s: string, i: nat)
    requires AllDigits(s) && i + 1 < |s|
    ensures AllDigits(Swapped(s, i))
    ensures var a, b, first := Value(s[i]), Value(s[i + 1]), IsDoubled(|s|, i, false);
      Sum(Swapped(s, i), false) ==
        Sum(s, false) + Weight(b, first) + Weight(a, !first) - Weight(a, first) - Weight(b, !first)
  {
    hide Weight, Sum, IsDoubled, Value;
    Alternates(|s|, i);
    SumReplace(s, i, s[i + 1], false);
    SumReplace(s[i := s[i + 1]], i + 1, s[i], false);
  }

  lemma Alternates(n: int, i: int)
    ensures IsDoubled(n, i + 1, false) == !IsDoubled(n, i, false)
  {}

  /** The check digit of a prefix. */
  function CheckDigit(prefix: string): char
    requires AllDigits(prefix)
  {
    ('0' as int + (10 - Sum(prefix, true) % 10) % 10) as char
  }

  /** Every prefix has exactly one check digit. */
  lemma OneCheckDigit(prefix: string, c: char)
    requires AllDigits(prefix) && IsDigit(c)
    ensures AllDigits(prefix + [c]) && (Passes(prefix + [c]) <==> c == CheckDigit(prefix))
  {
    var s := prefix + [c];
    assert s[..|s| - 1] == prefix;
    assert Sum(s, false) == Value(c) + Sum(prefix, true);
    OneComplement(Value(c), Sum(prefix, true));
  }

  lemma OneComplement(v: int, x: int)
    requires 0 <= v <= 9
    ensures (v + x) % 10 == 0 <==> v == (10 - x % 10) % 10
  {}
}
