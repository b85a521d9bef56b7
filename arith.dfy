/**
 * Unsigned machine arithmetic written out on natural numbers: powers of two,
 * the bits of a number, right shift, truncation to the low bits and bitwise
 * OR. The bit writer of the QR encoder works on bytes and 64-bit words with
 * `>>`, `<<`, `|=` and conversions to narrower types; these definitions say
 * exactly what those operators compute on non-negative values.
 */
module Arith {

  function Pow2(n: nat): (r: nat)
    ensures r >= 1
  {
    if n == 0 then 1 else 2 * Pow2(n - 1)
  }

  /** Bit t of a (0 = least significant). */
  predicate Bit(a: nat, t: nat)
  {
    if t == 0 then a % 2 == 1 else Bit(a / 2, t - 1)
  }

  /** a >> m on an unsigned word. */
  function Shr(a: nat, m: nat): nat
  {
    if m == 0 then a else Shr(a / 2, m - 1)
  }

  /** a << s, before any truncation to a word. */
  function Shl(a: nat, s: nat): nat
  {
    a * Pow2(s)
  }

  /** The low m bits of a: the conversion to an m-bit unsigned type. */
  function Low(a: nat, m: nat): nat
  {
    if m == 0 then 0 else 2 * Low(a / 2, m - 1) + a % 2
  }

  /** Bitwise OR. */
  function Or(a: nat, b: nat): nat
    decreases a + b
  {
    if a == 0 && b == 0 then 0
    else 2 * Or(a / 2, b / 2) + (if a % 2 == 1 || b % 2 == 1 then 1 else 0)
  }

  /** Bitwise exclusive OR. */
  function Xor(a: nat, b: nat): nat
    decreases a + b
  {
    if a == 0 && b == 0 then 0
    else 2 * Xor(a / 2, b / 2) + (if (a % 2 == 1) != (b % 2 == 1) then 1 else 0)
  }

  lemma {:induction false} Pow2Add(a: nat, b: nat)
    ensures Pow2(a + b) == Pow2(a) * Pow2(b)
  {
    if a > 0 {
      Pow2Add(a - 1, b);
    }
  }

  lemma {:induction false} Pow2Mono(a: nat, b: nat)
    requires a <= b
    ensures Pow2(a) <= Pow2(b)
  {
    if a < b {
      Pow2Mono(a, b - 1);
    }
  }

  lemma {:induction false} BitZero(t: nat)
    ensures !Bit(0, t)
  {
    if t > 0 {
      BitZero(t - 1);
    }
  }

  /** A number below 2^m has no bit at or above m. */
  lemma {:induction false} BitSmall(a: nat, m: nat, t: nat)
    requires a < Pow2(m) && m <= t
    ensures !Bit(a, t)
  {
    if m == 0 {
      BitZero(t);
    } else {
      BitSmall(a / 2, m - 1, t - 1);
    }
  }

  lemma {:induction false} BitShr(a: nat, m: nat, i: nat)
    ensures Bit(Shr(a, m), i) == Bit(a, m + i)
  {
    if m > 0 {
      BitShr(a / 2, m - 1, i);
    }
  }

  /** Shifting right by one more bit halves the result. */
  lemma {:induction false} ShrStep(a: nat, m: nat)
    ensures Shr(a, m + 1) == Shr(a, m) / 2
  {
    if m > 0 {
      ShrStep(a / 2, m - 1);
    }
  }

  lemma {:induction false} ShrBound(a: nat, m: nat, k: nat)
    requires m <= k && a < Pow2(k)
    ensures Shr(a, m) < Pow2(k - m)
  {
    if m > 0 {
      ShrBound(a / 2, m - 1, k - 1);
    }
  }

  lemma {:induction false} ShrSmall(a: nat, m: nat)
    requires a < Pow2(m)
    ensures Shr(a, m) == 0
  {
    ShrBound(a, m, m);
  }

  lemma {:induction false} BitLow(a: nat, m: nat, t: nat)
    ensures Bit(Low(a, m), t) == (t < m && Bit(a, t))
  {
    if m == 0 {
      BitZero(t);
    } else if t > 0 {
      BitLow(a / 2, m - 1, t - 1);
    }
  }

  lemma {:induction false} LowBound(a: nat, m: nat)
    ensures Low(a, m) < Pow2(m)
  {
    if m > 0 {
      LowBound(a / 2, m - 1);
    }
  }

  lemma {:induction false} LowFits(a: nat, m: nat)
    requires a < Pow2(m)
    ensures Low(a, m) == a
  {
    if m > 0 {
      LowFits(a / 2, m - 1);
    }
  }

  /** Go's `a - a >> m << m` keeps the low m bits. */
  lemma {:induction false} ShrLow(a: nat, m: nat)
    ensures a - Shl(Shr(a, m), m) == Low(a, m)
    ensures Shl(Shr(a, m), m) <= a
  {
    if m > 0 {
      ShrLow(a / 2, m - 1);
      calc {
        Shr(a, m) * Pow2(m);
        Shr(a / 2, m - 1) * (2 * Pow2(m - 1));
        2 * (Shr(a / 2, m - 1) * Pow2(m - 1));
      }
    }
  }

  lemma {:induction false} BitMul(a: nat, s: nat, t: nat)
    ensures Bit(a * Pow2(s), t) == (s <= t && Bit(a, t - s))
  {
    if s == 0 {
    } else if t == 0 {
      assert a * Pow2(s) == 2 * (a * Pow2(s - 1));
    } else {
      assert a * Pow2(s) == 2 * (a * Pow2(s - 1));
      BitMul(a, s - 1, t - 1);
    }
  }

  lemma BitShl(a: nat, s: nat, t: nat)
    ensures Bit(Shl(a, s), t) == (s <= t && Bit(a, t - s))
  {
    BitMul(a, s, t);
  }

  lemma {:induction false} BitOr(a: nat, b: nat, t: nat)
    ensures Bit(Or(a, b), t) == (Bit(a, t) || Bit(b, t))
    decreases t
  {
    if a == 0 && b == 0 {
      BitZero(t);
    } else if t > 0 {
      BitOr(a / 2, b / 2, t - 1);
    }
  }

  lemma {:induction false} OrBound(a: nat, b: nat, m: nat)
    requires a < Pow2(m) && b < Pow2(m)
    ensures Or(a, b) < Pow2(m)
  {
    if m > 0 && !(a == 0 && b == 0) {
      OrBound(a / 2, b / 2, m - 1);
    }
  }

  lemma {:induction false} BitXor(a: nat, b: nat, t: nat)
    ensures Bit(Xor(a, b), t) == (Bit(a, t) != Bit(b, t))
    decreases t
  {
    if a == 0 && b == 0 {
      BitZero(t);
    } else if t > 0 {
      BitXor(a / 2, b / 2, t - 1);
    }
  }

  lemma {:induction false} XorBound(a: nat, b: nat, m: nat)
    requires a < Pow2(m) && b < Pow2(m)
    ensures Xor(a, b) < Pow2(m)
  {
    if m > 0 && !(a == 0 && b == 0) {
      XorBound(a / 2, b / 2, m - 1);
    }
  }

  /** Two numbers below 2^n with the same n low bits are equal. */
  lemma {:induction false} BitsDetermine(a: nat, b: nat, n: nat)
    requires a < Pow2(n) && b < Pow2(n)
    requires forall t :: 0 <= t < n ==> Bit(a, t) == Bit(b, t)
    ensures a == b
  {
    if n > 0 {
      forall t | 0 <= t < n - 1
        ensures Bit(a / 2, t) == Bit(b / 2, t)
      {
        assert Bit(a, t + 1) == Bit(b, t + 1);
      }
      BitsDetermine(a / 2, b / 2, n - 1);
      assert Bit(a, 0) == Bit(b, 0);
    }
  }

  /** The low m bits of a are all clear exactly when none of them is set. */
  lemma {:induction false} LowZero(a: nat, m: nat)
    ensures Low(a, m) == 0 ==> forall t :: 0 <= t < m ==> !Bit(a, t)
    ensures (forall t :: 0 <= t < m ==> !Bit(a, t)) ==> Low(a, m) == 0
  {
    if m > 0 {
      LowZero(a / 2, m - 1);
      if Low(a, m) == 0 {
        forall t | 0 <= t < m ensures !Bit(a, t) {
          if t > 0 {
            assert !Bit(a / 2, t - 1);
          }
        }
      } else {
        if a % 2 == 0 {
          var t :| 0 <= t < m - 1 && Bit(a / 2, t);
          assert Bit(a, t + 1);
        } else {
          assert Bit(a, 0);
        }
      }
    }
  }

  /** The powers of two that field widths of the QR encoder use. */
  lemma Pow2Table()
    ensures Pow2(4) == 16 && Pow2(6) == 64 && Pow2(7) == 128 && Pow2(8) == 256
    ensures Pow2(9) == 512 && Pow2(10) == 1024 && Pow2(11) == 2048
    ensures Pow2(12) == 4096 && Pow2(13) == 8192 && Pow2(14) == 16384 && Pow2(16) == 65536
  {
    assert Pow2(2) == 4;
    assert Pow2(4) == 16;
    assert Pow2(6) == 64;
    assert Pow2(8) == 256;
    assert Pow2(10) == 1024;
    assert Pow2(12) == 4096;
    assert Pow2(14) == 16384;
  }
}
