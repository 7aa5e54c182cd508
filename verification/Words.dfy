/** Machine words of the C sources: 64-bit signed integers, their bitwise operators in
    two's complement, and powers of two. `>>` on a negative number is floor division. */
module Words {

  type int64 = x: int | -0x8000_0000_0000_0000 <= x <= 0x7fff_ffff_ffff_ffff

  type uint8 = x: int | 0 <= x < 256

  function Pow2(n: nat): (p: int)
    ensures p >= 1
  {
    if n == 0 then 1 else 2 * Pow2(n - 1)
  }

  lemma {:induction false} Pow2Add(m: nat, n: nat)
    ensures Pow2(m + n) == Pow2(m) * Pow2(n)
  {
    if m == 0 {
    } else {
      Pow2Add(m - 1, n);
      assert Pow2(m + n) == 2 * Pow2(m + n - 1);
    }
  }

  lemma {:induction false} Pow2Monotone(m: nat, n: nat)
    requires m <= n
    ensures Pow2(m) <= Pow2(n)
  {
    if m < n {
      Pow2Monotone(m, n - 1);
    }
  }

  // x is a two's-complement number with n bits below the sign bit
  predicate Fits(x: int, n: nat) {
    -Pow2(n) <= x < Pow2(n)
  }

  /** Bitwise and, xor: 0 stands for all bits clear and -1 for all bits set. */
  function And(a: int, b: int): int
    decreases if a < 0 then -a else a
  {
    if a == 0 then 0
    else if a == -1 then b
    else 2 * And(a / 2, b / 2) + (if a % 2 == 1 && b % 2 == 1 then 1 else 0)
  }

  function Xor(a: int, b: int): int
    decreases (if a < 0 then -a else a) + (if b < 0 then -b else b)
  {
    if -1 <= a <= 0 && -1 <= b <= 0 then (if a == b then 0 else -1)
    else 2 * Xor(a / 2, b / 2) + (if a % 2 == b % 2 then 0 else 1)
  }

  // the bitwise or, by De Morgan's law
  function Or(a: int, b: int): int {
    -1 - And(-1 - a, -1 - b)
  }

  lemma {:induction false} AndSign(a: int, b: int)
    ensures And(a, b) < 0 <==> a < 0 && b < 0
    decreases if a < 0 then -a else a
  {
    if a != 0 && a != -1 {
      AndSign(a / 2, b / 2);
    }
  }

  lemma ByteRange(a: uint8, b: uint8)
    ensures 0 <= And(a, b) < 256 && 0 <= Or(a, b) < 256
  {
    assert Pow2(8) == 256;
    WordRange(a, b, 8);
    WordRange(-1 - a, -1 - b, 8);
    AndSign(a, b);
    AndSign(-1 - a, -1 - b);
  }

  lemma {:induction false} WordRange(a: int, b: int, n: nat)
    requires Fits(a, n) && Fits(b, n)
    ensures Fits(And(a, b), n) && Fits(Xor(a, b), n)
    decreases n
  {
    if n > 0 {
      WordRange(a / 2, b / 2, n - 1);
      assert Xor(-1, -1) == Xor(0, 0) == 0 && Xor(0, -1) == Xor(-1, 0) == -1;
    }
  }

  lemma {:induction false} AndZero(x: int)
    ensures And(x, 0) == 0
    decreases if x < 0 then -x else x
  {
    if x != 0 && x != -1 {
      AndZero(x / 2);
    }
  }

  /** A mask of k ones takes the remainder mod 2^k, also for a negative word. */
  lemma {:induction false} AndLowBits(x: int, k: nat)
    ensures And(x, Pow2(k) - 1) == x % Pow2(k)
    decreases k
  {
    if k == 0 {
      AndZero(x);
    } else {
      AndLowBits(x / 2, k - 1);
      assert (Pow2(k) - 1) / 2 == Pow2(k - 1) - 1;
      ModDouble(x, Pow2(k - 1));
    }
  }

  lemma ModDouble(x: int, m: nat)
    requires m > 0
    ensures x % (2 * m) == 2 * ((x / 2) % m) + x % 2
  {
    var q, r := (x / 2) / m, (x / 2) % m;
    assert x / 2 == m * q + r;
    assert x == 2 * (x / 2) + x % 2;
    assert x == (2 * m) * q + (2 * r + x % 2);
    DivModUnique(x, 2 * m, q, 2 * r + x % 2);
  }

  lemma MulAtLeast(m: int, d: int)
    requires m > 0 && d >= 1
    ensures m * d >= m
  {
  }

  lemma DivModUnique(x: int, m: int, q: int, r: int)
    requires m > 0 && x == m * q + r && 0 <= r < m
    ensures x / m == q && x % m == r
  {
    var q', r' := x / m, x % m;
    assert x == m * q' + r';
    assert m * q - m * q' == m * (q - q') == -(m * (q' - q));
    if q > q' {
      MulAtLeast(m, q - q');
    } else if q < q' {
      MulAtLeast(m, q' - q);
    }
  }

  lemma {:induction false} XorWithZero(a: int)
    ensures Xor(a, 0) == a
    decreases if a < 0 then -a else a
  {
    if a != 0 && a != -1 {
      XorWithZero(a / 2);
    }
  }

  /** Adding the difference of two words to either one gives the other. */
  lemma {:induction false} XorCancels(a: int, b: int)
    ensures Xor(a, Xor(a, b)) == b
    ensures Xor(b, Xor(a, b)) == a
    decreases (if a < 0 then -a else a) + (if b < 0 then -b else b)
  {
    var x := Xor(a, b);
    if !(-1 <= a <= 0 && -1 <= b <= 0) {
      var y := Xor(a / 2, b / 2);
      assert x / 2 == y && (x % 2 == 0 <==> a % 2 == b % 2);
      XorCancels(a / 2, b / 2);
      XorUnfold(a, x);
      XorUnfold(b, x);
    }
  }

  lemma XorUnfold(a: int, b: int)
    ensures Xor(a, b) == 2 * Xor(a / 2, b / 2) + (if a % 2 == b % 2 then 0 else 1)
  {
  }

  lemma Int64Range(a: int64, b: int64)
    ensures -0x8000_0000_0000_0000 <= And(a, b) <= 0x7fff_ffff_ffff_ffff
    ensures -0x8000_0000_0000_0000 <= Xor(a, b) <= 0x7fff_ffff_ffff_ffff
  {
    Pow2Of63();
    WordRange(a, b, 63);
  }

  lemma Pow2Of63()
    ensures Pow2(63) == 0x8000_0000_0000_0000
  {
    Pow2Of16();
    Pow2Add(16, 16);
    Pow2Add(32, 16);
    Pow2Add(48, 15);
  }

  lemma Pow2Of16()
    ensures Pow2(15) == 0x8000 && Pow2(16) == 0x1_0000
  {
    assert Pow2(8) == 256 && Pow2(7) == 128;
    Pow2Add(8, 7);
    Pow2Add(8, 8);
  }

  // ----- clearing low bits -----

  /** x without its remainder modulo m. */
  function Cleared(x: int, m: int): int
    requires m > 0
  {
    x - x % m
  }

  lemma ClearedIs(x: int, m: int, q: int, r: int)
    requires m > 0 && x == m * q + r && 0 <= r < m
    ensures Cleared(x, m) == m * q
  {
    DivModUnique(x, m, q, r);
  }

  lemma ClearedQuotient(x: int, m: int)
    requires m > 0
    ensures Cleared(x, m) == m * (x / m) && 0 <= x - Cleared(x, m) < m
  {
  }

  lemma ClearedByte(x: uint8, m: int)
    requires m > 0
    ensures 0 <= Cleared(x, m) < 256
  {
  }

  lemma ClearedHalf(x: int, m: int)
    requires m > 0
    ensures Cleared(x, 2 * m) == 2 * Cleared(x / 2, m)
  {
    ModDouble(x, m);
  }

  /** A mask of ones above k zeros clears the low k bits. */
  lemma {:induction false} AndHighBits(x: int, w: nat, k: nat)
    requires 0 <= x < Pow2(w) && k <= w
    ensures And(x, Pow2(w) - Pow2(k)) == Cleared(x, Pow2(k))
    decreases k
  {
    if k == 0 {
      AndLowBits(x, w);
      SmallRemainder(x, Pow2(w));
    } else {
      Pow2Half(w);
      Pow2Half(k);
      hide Cleared, And, Pow2;
      AndHighBits(x / 2, w - 1, k - 1);
      ClearedHalf(x, Pow2(k - 1));
      AndEven(x, Pow2(w - 1) - Pow2(k - 1));
    }
  }

  lemma Pow2Half(n: nat)
    requires n > 0
    ensures Pow2(n) == 2 * Pow2(n - 1)
  {
  }

  lemma SmallRemainder(x: int, m: int)
    requires 0 <= x < m
    ensures x % m == x
  {
  }

  lemma AndEven(x: int, half: int)
    requires x >= 0
    ensures And(x, 2 * half) == 2 * And(x / 2, half)
  {
  }
}
