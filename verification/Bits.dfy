/** Unsigned machine arithmetic shared by the cores: powers of two, wrap-around,
    bitwise "and", shifts, and the cores' `clogb2`. Wrap-around is written as
    repeated subtraction so that it stays linear for any register width. */
module Bits {

  function Pow2(n: nat): (p: nat)
    ensures p >= 1
  {
    if n == 0 then 1 else 2 * Pow2(n - 1)
  }

  function Bit(b: bool): nat {
    if b then 1 else 0
  }

  lemma Pow2Sixteen(n: nat)
    requires n >= 4
    ensures Pow2(n) == 16 * Pow2(n - 4)
  {
    assert Pow2(n) == 4 * Pow2(n - 2);
  }

  lemma Pow2SixtyFour(n: nat)
    requires n >= 6
    ensures Pow2(n) == 64 * Pow2(n - 6)
  {
    assert Pow2(n) == 4 * Pow2(n - 2);
    Pow2Sixteen(n - 2);
  }

  lemma Pow2Values()
    ensures Pow2(17) == 0x2_0000 && Pow2(22) == 0x40_0000 && Pow2(23) == 0x80_0000
  {
    assert Pow2(1) == 2;
    Pow2Sixteen(5);
    Pow2Sixteen(9);
    Pow2Sixteen(13);
    Pow2Sixteen(17);
    Pow2Sixteen(21);
    assert Pow2(23) == 2 * Pow2(22) == 4 * Pow2(21);
  }

  /** The value of x in a register that counts modulo m. */
  function Wrap(x: nat, m: nat): (r: nat)
    requires m > 0
    ensures r < m
    ensures x < m ==> r == x
    decreases x
  {
    if x < m then x else Wrap(x - m, m)
  }

  /** Wrap-around is the remainder of division. */
  lemma {:induction false} WrapIsRemainder(x: nat, m: nat)
    requires m > 0
    ensures Wrap(x, m) == x % m
  {
    if x < m {
    } else {
      WrapIsRemainder(x - m, m);
      RemainderDrop(x, m);
    }
  }

  lemma RemainderDrop(x: nat, m: nat)
    requires 0 < m <= x
    ensures x % m == (x - m) % m
  {
    var q, r := (x - m) / m, (x - m) % m;
    assert x == m * (q + 1) + r;
    var d := q + 1 - x / m;
    assert m * d == x % m - r;
    MulAtLeast(m, d);
    MulAtLeast(m, -d);
  }

  lemma MulAtLeast(m: nat, d: int)
    requires m > 0
    ensures d >= 1 ==> m * d >= m
    ensures m * (-d) == -(m * d)
  {
    assert m * d == m * (d - 1) + m;
  }

  /** Stepping a register is stepping the number it stands for. */
  lemma {:induction false} WrapStep(x: nat, m: nat)
    requires m > 0
    ensures Wrap(x + 1, m) == Wrap(Wrap(x, m) + 1, m)
  {
    if x < m {
    } else {
      WrapStep(x - m, m);
    }
  }

  /** Adding before or after wrapping is the same. */
  lemma {:induction false} WrapAdd(x: nat, y: nat, m: nat)
    requires m > 0
    ensures Wrap(x + y, m) == Wrap(Wrap(x, m) + y, m)
  {
    if x < m {
    } else {
      WrapAdd(x - m, y, m);
    }
  }

  /** A register keeps the remainders of the divisors of its modulus: by sixteen... */
  lemma {:induction false} WrapLowBits16(x: nat, q: nat)
    requires q > 0
    ensures Wrap(x, 16 * q) % 16 == x % 16
  {
    if x < 16 * q {
    } else {
      WrapLowBits16(x - 16 * q, q);
      DropMultiple16(x, q);
    }
  }

  lemma DropMultiple16(x: nat, q: nat)
    requires 16 * q <= x
    ensures (x - 16 * q) % 16 == x % 16
  {
  }

  /** ... and by sixty-four. */
  lemma {:induction false} WrapLowBits64(x: nat, q: nat)
    requires q > 0
    ensures Wrap(x, 64 * q) % 64 == x % 64
  {
    if x < 64 * q {
    } else {
      WrapLowBits64(x - 64 * q, q);
      DropMultiple64(x, q);
    }
  }

  lemma DropMultiple64(x: nat, q: nat)
    requires 64 * q <= x
    ensures (x - 64 * q) % 64 == x % 64
  {
  }

  /** Two numbers less than m apart wrap to different values. */
  lemma {:induction false} WrapInjective(x: nat, y: nat, m: nat)
    requires m > 0 && x < y < x + m
    ensures Wrap(x, m) != Wrap(y, m)
  {
    if x < m {
    } else {
      WrapInjective(x - m, y - m, m);
    }
  }

  /** C's `&` on unsigned operands, bit by bit. */
  function BitAnd(x: nat, y: nat): nat
  {
    if x == 0 || y == 0 then 0
    else (if x % 2 == 1 && y % 2 == 1 then 1 else 0) + 2 * BitAnd(x / 2, y / 2)
  }

  function ShiftLeft(x: nat, n: nat): nat
  {
    if n == 0 then x else 2 * ShiftLeft(x, n - 1)
  }

  function ShiftRight(x: nat, n: nat): nat
  {
    if n == 0 then x else ShiftRight(x / 2, n - 1)
  }

  lemma {:induction false} WrapHalf(x: nat, p: nat)
    requires p > 0
    ensures Wrap(x, 2 * p) == 2 * Wrap(x / 2, p) + x % 2
  {
    if x < 2 * p {
    } else {
      WrapHalf(x - 2 * p, p);
      assert (x - 2 * p) / 2 == x / 2 - p;
    }
  }

  /** A mask of n ones keeps exactly the value modulo 2^n. */
  lemma {:induction false} AndOnes(x: nat, n: nat)
    ensures BitAnd(x, Pow2(n) - 1) == Wrap(x, Pow2(n))
  {
    if n > 0 {
      var p := Pow2(n - 1);
      WrapHalf(x, p);
      AndOnes(x / 2, n - 1);
      assert (2 * p - 1) / 2 == p - 1;
    } else {
      WrapOne(x);
    }
  }

  lemma {:induction false} WrapOne(x: nat)
    ensures Wrap(x, 1) == 0
  {
    if x == 0 {
    } else {
      WrapOne(x - 1);
    }
  }

  /** Trailing zeros of a mask clear the low bits and leave the rest to the mask. */
  lemma {:induction false} AndShifted(x: nat, mask: nat, n: nat)
    ensures BitAnd(x, ShiftLeft(mask, n)) == ShiftLeft(BitAnd(ShiftRight(x, n), mask), n)
  {
    if n == 0 {
    } else {
      assert ShiftLeft(mask, n) / 2 == ShiftLeft(mask, n - 1);
      AndShifted(x / 2, mask, n - 1);
    }
  }

  /** The number of bits needed to hold a value: the cores size their address
      fields with it. */
  method Clogb2(value: nat) returns (bits: nat)
    ensures bits >= 1
    ensures value < Pow2(bits)
    ensures value >= 1 ==> Pow2(bits - 1) <= value
    ensures value == 0 ==> bits == 1
  {
    var temp := value;
    bits := 1;
    while temp > 1
      invariant bits >= 1
      invariant temp == ShiftRight(value, bits - 1)
      invariant value >= 1 ==> temp >= 1
      invariant value == 0 ==> bits == 1
    {
      ShiftRightStep(value, bits - 1);
      bits := bits + 1;
      temp := temp / 2;
    }
    ShiftRightBounds(value, bits - 1);
  }

  lemma {:induction false} ShiftRightStep(x: nat, n: nat)
    ensures ShiftRight(x, n + 1) == ShiftRight(x, n) / 2
  {
    if n == 0 {
    } else {
      ShiftRightStep(x / 2, n - 1);
    }
  }

  lemma {:induction false} ShiftRightBounds(x: nat, n: nat)
    ensures ShiftRight(x, n) <= 1 ==> x < Pow2(n + 1)
    ensures ShiftRight(x, n) >= 1 ==> Pow2(n) <= x
  {
    if n == 0 {
    } else {
      ShiftRightBounds(x / 2, n - 1);
    }
  }
}
