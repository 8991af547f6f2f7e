/** The growth policy of cJSON's print buffer: the smallest power of two that is large enough. */
module Pow2 {
  import opened Bytes

  /** `a | b` on non-negative integers. */
  function Or(a: nat, b: nat): nat
    decreases a + b
  {
    if a == 0 then b
    else if b == 0 then a
    else 2 * Or(a / 2, b / 2) + if a % 2 == 1 || b % 2 == 1 then 1 else 0
  }

  /** `x >> k`. */
  function ShiftRight(x: nat, k: nat): nat {
    if k == 0 then x else ShiftRight(x / 2, k - 1)
  }

  predicate IsPow2(p: nat) {
    p == 1 || (p > 1 && p % 2 == 0 && IsPow2(p / 2))
  }

  /** The binary digits of `h` followed by `m` ones. */
  function Grow(h: nat, m: nat): nat {
    if m == 0 then h else 2 * Grow(h, m - 1) + 1
  }

  function Ones(m: nat): nat {
    Grow(0, m)
  }

  function BitLength(x: nat): nat {
    if x == 0 then 0 else 1 + BitLength(x / 2)
  }

  /** `x` has at most `n` bits and its top `m` of them are ones. */
  predicate TopOnes(x: nat, n: nat, m: nat)
    requires m <= n
  {
    ShiftRight(x, n - m) == Ones(m)
  }

  lemma {:induction false} ShiftShift(x: nat, a: nat, b: nat)
    ensures ShiftRight(ShiftRight(x, a), b) == ShiftRight(x, a + b)
    decreases a
  {
    if a > 0 {
      ShiftShift(x / 2, a - 1, b);
    }
  }

  lemma HalfOr(a: nat, b: nat)
    ensures Or(a, b) / 2 == Or(a / 2, b / 2)
  {
  }

  lemma {:induction false} ShiftOr(a: nat, b: nat, k: nat)
    ensures ShiftRight(Or(a, b), k) == Or(ShiftRight(a, k), ShiftRight(b, k))
    decreases k
  {
    if k > 0 {
      HalfOr(a, b);
      ShiftOr(a / 2, b / 2, k - 1);
    }
  }

  lemma {:induction false} OrOnes(y: nat, m: nat)
    ensures Or(y, Ones(m)) == Grow(ShiftRight(y, m), m)
    decreases m
  {
    if m > 0 {
      OrOnes(y / 2, m - 1);
      assert Ones(m) / 2 == Ones(m - 1) && Ones(m) % 2 == 1;
    }
  }

  lemma {:induction false} GrowOnes(k: nat, m: nat)
    ensures Grow(Ones(k), m) == Ones(k + m)
    decreases m
  {
    if m > 0 {
      GrowOnes(k, m - 1);
    }
  }

  lemma {:induction false} ShiftOnes(a: nat, b: nat)
    ensures ShiftRight(Ones(a), b) == if b <= a then Ones(a - b) else 0
    decreases b
  {
    if b > 0 {
      if a > 0 {
        assert Ones(a) / 2 == Ones(a - 1);
        ShiftOnes(a - 1, b - 1);
      } else {
        ShiftOnes(0, b - 1);
      }
    }
  }

  lemma SmearTop(x: nat, n: nat, s: nat)
    requires 2 * s <= n && TopOnes(x, n, s)
    ensures TopOnes(Or(x, ShiftRight(x, s)), n, 2 * s)
  {
    var j := n - 2 * s;
    ShiftOr(x, ShiftRight(x, s), j);
    ShiftShift(x, s, j);
    ShiftShift(x, j, s);
    OrOnes(ShiftRight(x, j), s);
    GrowOnes(s, s);
  }

  lemma SmearAll(x: nat, n: nat, s: nat)
    requires s <= n < 2 * s && TopOnes(x, n, s)
    ensures Or(x, ShiftRight(x, s)) == Ones(n)
  {
    ShiftShift(x, n - s, 2 * s - n);
    ShiftOnes(s, 2 * s - n);
    OrOnes(x, n - s);
    GrowOnes(s, n - s);
  }

  /** `x |= x >> s` doubles the leading ones. */
  lemma Smear(x: nat, n: nat, s: nat)
    requires TopOnes(x, n, Min(s, n))
    ensures TopOnes(Or(x, ShiftRight(x, s)), n, Min(2 * s, n))
  {
    if 2 * s <= n {
      SmearTop(x, n, s);
    } else if s <= n {
      SmearAll(x, n, s);
    } else {
      ShiftOnes(n, s);
    }
  }

  lemma {:induction false} TopBit(x: nat)
    ensures TopOnes(x, BitLength(x), Min(1, BitLength(x)))
  {
    if x > 1 {
      TopBit(x / 2);
    }
  }

  lemma {:induction false} OnesPow2(n: nat)
    ensures IsPow2(Ones(n) + 1)
  {
    if n > 0 {
      OnesPow2(n - 1);
    }
  }

  lemma {:induction false} BitLengthBound(x: nat)
    ensures x <= Ones(BitLength(x)) && (x > 0 ==> Ones(BitLength(x)) < 2 * x)
  {
    if x > 0 {
      BitLengthBound(x / 2);
    }
  }

  lemma {:induction false} BitLengthAtMost(x: nat, n: nat)
    requires x <= Ones(n)
    ensures BitLength(x) <= n
  {
    if x > 0 {
      BitLengthAtMost(x / 2, n - 1);
    }
  }

  lemma SizeBits(x: nat)
    requires x < 0x4000_0000
    ensures BitLength(x) <= 30
  {
    OnesThirty();
    BitLengthAtMost(x, 30);
  }

  /** `pow2gt` for sizes that fit: the smallest power of two that is at least `size`. */
  method RoundUp(size: nat) returns (p: nat)
    requires 1 <= size <= 0x4000_0000
    ensures size <= p && IsPow2(p) && p / 2 < size
  {
    var x := size - 1;
    ghost var n := BitLength(x);
    TopBit(x);
    SizeBits(x);
    Smear(x, n, 1);
    x := Or(x, ShiftRight(x, 1));
    Smear(x, n, 2);
    x := Or(x, ShiftRight(x, 2));
    Smear(x, n, 4);
    x := Or(x, ShiftRight(x, 4));
    Smear(x, n, 8);
    x := Or(x, ShiftRight(x, 8));
    Smear(x, n, 16);
    x := Or(x, ShiftRight(x, 16));
    BitLengthBound(size - 1);
    OnesPow2(n);
    p := x + 1;
  }

  lemma OnesThirty()
    ensures Ones(30) == 0x3FFF_FFFF
  {
    assert Ones(10) == 0x3FF;
    GrowOnes(10, 10);
    assert Ones(20) == 0xF_FFFF;
  }
}
