/** Machine words as natural numbers, with the bitwise operators of the source written out bit by
    bit. Every width is explicit where a result is truncated. */
module Bits {

  function Pow2(k: nat): (r: nat)
    ensures r >= 1
  {
    if k == 0 then 1 else 2 * Pow2(k - 1)
  }

  /** `(x >> k) & 1 == 1` */
  predicate BitAt(x: nat, k: nat) {
    if k == 0 then x % 2 == 1 else BitAt(x / 2, k - 1)
  }

  function Digit(b: bool): (r: nat) {
    if b then 1 else 0
  }

  function Or(x: nat, y: nat): nat
    decreases x + y
  {
    if x + y == 0 then 0 else 2 * Or(x / 2, y / 2) + Digit(x % 2 == 1 || y % 2 == 1)
  }

  function And(x: nat, y: nat): nat
    decreases x + y
  {
    if x + y == 0 then 0 else 2 * And(x / 2, y / 2) + Digit(x % 2 == 1 && y % 2 == 1)
  }

  function Xor(x: nat, y: nat): nat
    decreases x + y
  {
    if x + y == 0 then 0 else 2 * Xor(x / 2, y / 2) + Digit((x % 2 == 1) != (y % 2 == 1))
  }

  /** `x << k` on a word of `width` bits: the bits shifted past the top are lost. */
  function Shl(x: nat, k: nat, width: nat): nat {
    (x * Pow2(k)) % Pow2(width)
  }

  /** `x >> k`: drop the lowest bit k times. */
  function Shr(x: nat, k: nat): nat {
    if k == 0 then x else Shr(x / 2, k - 1)
  }

  // ---- the bits of a result ----

  lemma OrStep(x: nat, y: nat)
    ensures Or(x, y) / 2 == Or(x / 2, y / 2)
    ensures Or(x, y) % 2 == 1 <==> x % 2 == 1 || y % 2 == 1
  {
  }

  lemma AndStep(x: nat, y: nat)
    ensures And(x, y) / 2 == And(x / 2, y / 2)
    ensures And(x, y) % 2 == 1 <==> x % 2 == 1 && y % 2 == 1
  {
  }

  lemma XorStep(x: nat, y: nat)
    ensures Xor(x, y) / 2 == Xor(x / 2, y / 2)
    ensures Xor(x, y) % 2 == 1 <==> (x % 2 == 1) != (y % 2 == 1)
  {
  }

  lemma {:induction false} OrBit(x: nat, y: nat, k: nat)
    ensures BitAt(Or(x, y), k) == (BitAt(x, k) || BitAt(y, k))
    decreases k
  {
    OrStep(x, y);
    if k > 0 {
      OrBit(x / 2, y / 2, k - 1);
    }
  }

  lemma {:induction false} XorBit(x: nat, y: nat, k: nat)
    ensures BitAt(Xor(x, y), k) == (BitAt(x, k) != BitAt(y, k))
    decreases k
  {
    XorStep(x, y);
    if k > 0 {
      XorBit(x / 2, y / 2, k - 1);
    }
  }

  lemma {:induction false} AndBit(x: nat, y: nat, k: nat)
    ensures BitAt(And(x, y), k) == (BitAt(x, k) && BitAt(y, k))
    decreases k
  {
    AndStep(x, y);
    if k > 0 {
      AndBit(x / 2, y / 2, k - 1);
    }
  }

  lemma {:induction false} Pow2Bit(n: nat, k: nat)
    ensures BitAt(Pow2(n), k) == (k == n)
    decreases k
  {
    if k == 0 {
    } else if n == 0 {
      ZeroBit(k - 1);
    } else {
      assert Pow2(n) / 2 == Pow2(n - 1);
      Pow2Bit(n - 1, k - 1);
    }
  }

  lemma {:induction false} ZeroBit(k: nat)
    ensures !BitAt(0, k)
  {
    if k > 0 {
      ZeroBit(k - 1);
    }
  }

  /** A word with no bit set is zero. */
  lemma {:induction false} SomeBit(x: nat) returns (k: nat)
    requires x > 0
    ensures BitAt(x, k)
  {
    if x % 2 == 1 {
      k := 0;
    } else {
      var j := SomeBit(x / 2);
      k := j + 1;
    }
  }

  /** `x & (1 << k) != 0` reads bit k. */
  lemma {:induction false} TestBit(x: nat, k: nat)
    ensures And(x, Pow2(k)) != 0 <==> BitAt(x, k)
  {
    AndBit(x, Pow2(k), k);
    Pow2Bit(k, k);
    if And(x, Pow2(k)) != 0 {
      var j := SomeBit(And(x, Pow2(k)));
      AndBit(x, Pow2(k), j);
      Pow2Bit(k, j);
    } else {
      ZeroBit(k);
    }
  }

  // ---- widths ----

  lemma {:induction false} HighBitsClear(x: nat, n: nat, k: nat)
    requires x < Pow2(n) && k >= n
    ensures !BitAt(x, k)
  {
    if n == 0 {
      ZeroBit(k);
    } else {
      HighBitsClear(x / 2, n - 1, k - 1);
    }
  }

  lemma {:induction false} BitAbove(x: nat, n: nat) returns (k: nat)
    requires x >= Pow2(n)
    ensures k >= n && BitAt(x, k)
  {
    if n == 0 {
      k := SomeBit(x);
    } else {
      assert x / 2 >= Pow2(n - 1);
      var j := BitAbove(x / 2, n - 1);
      k := j + 1;
    }
  }

  lemma {:induction false} OrFits(x: nat, y: nat, n: nat)
    requires x < Pow2(n) && y < Pow2(n)
    ensures Or(x, y) < Pow2(n)
  {
    if n > 0 {
      OrFits(x / 2, y / 2, n - 1);
    }
  }

  lemma {:induction false} Pow2Monotone(m: nat, n: nat)
    requires m <= n
    ensures Pow2(m) <= Pow2(n)
    ensures m < n ==> Pow2(m) < Pow2(n)
  {
    if m < n {
      Pow2Monotone(m, n - 1);
    }
  }

  lemma {:induction false} Pow2Add(m: nat, n: nat)
    ensures Pow2(m + n) == Pow2(m) * Pow2(n)
  {
    if m > 0 {
      Pow2Add(m - 1, n);
    }
  }

  // ---- packing: a low field of k bits below a shifted high field ----

  /** OR of two fields that share no bit is their sum. */
  lemma {:induction false} OrOfDisjointFields(low: nat, high: nat, k: nat)
    requires low < Pow2(k)
    ensures Or(low, high * Pow2(k)) == low + high * Pow2(k)
  {
    if k == 0 {
      OrZero(high);
    } else {
      assert high * Pow2(k) == 2 * (high * Pow2(k - 1));
      OrOfDisjointFields(low / 2, high, k - 1);
    }
  }

  lemma {:induction false} OrZero(x: nat)
    ensures Or(0, x) == x
  {
    if x > 0 {
      OrZero(x / 2);
    }
  }

  /** Shifting right drops the low field. */
  lemma {:induction false} ShrDropsLowField(low: nat, high: nat, k: nat)
    requires low < Pow2(k)
    ensures Shr(low + high * Pow2(k), k) == high
  {
    if k > 0 {
      assert high * Pow2(k) == 2 * (high * Pow2(k - 1));
      ShrDropsLowField(low / 2, high, k - 1);
    }
  }

  /** Masking with 2^k - 1 takes the remainder. */
  lemma {:induction false} MaskIsRemainder(x: nat, k: nat)
    ensures And(x, Pow2(k) - 1) == x % Pow2(k)
  {
    if k == 0 {
      AndZero(x);
    } else {
      var m := Pow2(k - 1);
      assert (Pow2(k) - 1) / 2 == m - 1 && (Pow2(k) - 1) % 2 == 1;
      MaskIsRemainder(x / 2, k - 1);
      assert x % (2 * m) == 2 * ((x / 2) % m) + x % 2 by {
        RemainderOfDouble(x, m);
      }
    }
  }

  lemma {:induction false} AndZero(x: nat)
    ensures And(x, 0) == 0
  {
    if x > 0 {
      AndZero(x / 2);
    }
  }

  lemma RemainderOfDouble(x: nat, m: nat)
    requires m > 0
    ensures x % (2 * m) == 2 * ((x / 2) % m) + x % 2
  {
    var q, r := (x / 2) / m, (x / 2) % m;
    assert x / 2 == q * m + r;
    DivModUnique(x, 2 * m, q, 2 * r + x % 2);
  }

  lemma DivModUnique(x: nat, d: nat, q: nat, r: nat)
    requires d > 0 && r < d && x == q * d + r
    ensures x / d == q && x % d == r
  {
    var q', r' := x / d, x % d;
    assert x == d * q' + r';
    assert (q - q') * d == q * d - q' * d;
    assert (q' - q) * d == q' * d - q * d;
    if q > q' {
      MulAtLeast(q - q', d);
    } else if q < q' {
      MulAtLeast(q' - q, d);
    }
  }

  lemma {:induction false} MulAtLeast(n: nat, d: nat)
    requires n >= 1
    ensures n * d >= d
  {
    if n > 1 {
      MulAtLeast(n - 1, d);
      assert n * d == (n - 1) * d + d;
    }
  }
}
