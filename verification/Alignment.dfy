/** Alignment by masks, as the C code writes it, and what it means for powers of two. */
module Alignment {
  import opened Pow2

  /** `x & m` on non-negative integers. */
  function And(x: nat, m: nat): nat {
    if x == 0 || m == 0 then 0 else 2 * And(x / 2, m / 2) + if x % 2 == 1 && m % 2 == 1 then 1 else 0
  }

  /** `x & ~m`. */
  function AndNot(x: nat, m: nat): nat {
    if x == 0 then 0 else 2 * AndNot(x / 2, m / 2) + if x % 2 == 1 && m % 2 == 0 then 1 else 0
  }

  lemma {:induction false} ClearNothing(x: nat)
    ensures AndNot(x, 0) == x
  {
    if x > 0 {
      ClearNothing(x / 2);
    }
  }

  lemma MultipleGrows(x: nat, y: nat, a: nat)
    requires x <= y
    ensures x * a <= y * a && (x + 1) * a == x * a + a
  {
    assert (y - x) * a >= 0;
  }

  lemma DivideRest(d: nat, a: nat, m: nat)
    requires m < a
    ensures (d * a + m) / a == d && (d * a + m) % a == m
  {
    var x := d * a + m;
    var q, r := x / a, x % a;
    assert x == q * a + r;
    if q < d { MultipleGrows(q + 1, d, a); }
    if d < q { MultipleGrows(d + 1, q, a); }
  }

  /** Masking with a power of two less one is taking the remainder, and masking it out is rounding down. */
  lemma {:induction false} Masks(x: nat, a: nat)
    requires IsPow2(a)
    ensures And(x, a - 1) == x % a && AndNot(x, a - 1) == x / a * a
    decreases a
  {
    if a == 1 {
      ClearNothing(x);
    } else {
      var b := a / 2;
      Masks(x / 2, b);
      HalvesDivide(x, b);
      assert (a - 1) / 2 == b - 1 && (a - 1) % 2 == 1;
    }
  }

  lemma HalvesDivide(x: nat, b: nat)
    requires b > 0
    ensures x % (2 * b) == 2 * (x / 2 % b) + x % 2 && x / (2 * b) * (2 * b) == 2 * (x / 2 / b * b)
  {
    var d, r := x / 2 / b, x / 2 % b;
    assert x / 2 == d * b + r;
    assert d * (2 * b) == 2 * (d * b);
    DivideRest(d, 2 * b, 2 * r + x % 2);
  }

  /** The choice of `rt_malloc_align`: the next multiple of `a` strictly above `x`. */
  method NextMultiple(x: nat, a: nat) returns (r: nat)
    requires IsPow2(a)
    ensures x < r <= x + a && r % a == 0
  {
    Masks(x, a);
    Masks(x + (a - 1), a);
    MultipleAbove(x, a);
    if And(x, a - 1) == 0 {
      r := x + a;
    } else {
      r := AndNot(x + (a - 1), a - 1);
    }
  }

  lemma MultipleAbove(x: nat, a: nat)
    requires a > 0
    ensures x % a == 0 ==> (x + a) % a == 0
    ensures x % a != 0 ==> var r := (x + (a - 1)) / a * a; x < r < x + a && r % a == 0
  {
    var d, m := x / a, x % a;
    assert x == d * a + m;
    if m == 0 {
      assert x + a == (d + 1) * a;
      DivideRest(d + 1, a, 0);
    } else {
      assert x + (a - 1) == (d + 1) * a + (m - 1);
      DivideRest(d + 1, a, m - 1);
      DivideRest(d + 1, a, 0);
    }
  }

  lemma WordMask()
    ensures IsPow2(4)
  {
    assert IsPow2(2);
  }

  /** Rounding up to whole words of four bytes, in words. */
  method RoundUpToWord(n: nat) returns (w: nat)
    ensures w == (n + 3) / 4
  {
    WordMask();
    Masks(n + 3, 4);
    w := AndNot(n + 3, 3) / 4;
  }

  lemma LargePowers(a: nat)
    requires IsPow2(a) && a >= 4
    ensures a % 4 == 0
  {
    var b := a / 2;
    assert IsPow2(b) && b >= 2;
    assert b % 2 == 0;
  }

  lemma WholeWords(a: nat)
    requires a % 4 == 0
    ensures 4 * ((a + 3) / 4) == a
  {
  }

  lemma SmallWords(a: nat)
    requires 0 < a < 4
    ensures (a + 3) / 4 == 1
  {
  }

  /** A power of two, rounded up to whole words, is one still. */
  lemma PowersInWords(a: nat, w: nat)
    requires IsPow2(a) && w == (a + 3) / 4
    ensures 0 < w && IsPow2(4 * w)
  {
    if a >= 4 {
      LargePowers(a);
      WholeWords(a);
    } else {
      SmallWords(a);
      WordMask();
    }
  }

  /** A multiple of `4 * a` bytes is a multiple of `a` words. */
  lemma WordMultiple(r: nat, a: nat)
    requires a > 0 && r % (4 * a) == 0
    ensures r % 4 == 0 && r / 4 % a == 0
  {
    var d := r / (4 * a);
    assert r == d * (4 * a) == 4 * (d * a);
    DivideRest(d, a, 0);
  }
}
