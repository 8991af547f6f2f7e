/** What a string of decimal digits means, and that the digit loops of the code read it. */
module Numerals {
  import opened Bytes

  ghost predicate AllDigits(s: Text, i: nat, j: nat) {
    i <= j <= |s| && forall k :: i <= k < j ==> IsDigit(s[k])
  }

  ghost function Power(k: nat): (r: nat)
    ensures r > 0
  {
    if k == 0 then 1 else 10 * Power(k - 1)
  }

  /** The number that the digits from `i` up to `j` spell in base ten. */
  ghost function Positional(s: Text, i: nat, j: nat): nat
    requires AllDigits(s, i, j)
    decreases j - i
  {
    if i == j then 0 else (s[i] - 48) * Power(j - i - 1) + Positional(s, i + 1, j)
  }

  lemma {:induction false} ReadsPositional(s: Text, i: nat, j: nat, n: nat)
    requires AllDigits(s, i, j) && !IsDigit(At(s, j))
    ensures ReadDigits(s, i, n) == (n * Power(j - i) + Positional(s, i, j), j)
    decreases j - i
  {
    if i < j {
      assert IsDigit(s[i]);
      var d := s[i] - 48;
      ReadsPositional(s, i + 1, j, 10 * n + d);
      Distribute(n, d, Power(j - i - 1));
      assert Power(j - i) == 10 * Power(j - i - 1);
    }
  }

  lemma Distribute(n: nat, d: nat, p: nat)
    ensures (10 * n + d) * p == n * (10 * p) + d * p
  {
  }
}
