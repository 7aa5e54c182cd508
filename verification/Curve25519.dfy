/** `invert` and `curve25519_shared_secret` of x25519.c, proved against RFC 7748. */
module Curve25519 {
  import opened Words
  import opened Limbs
  import opened Rfc7748
  import opened FieldArithmetic
  import opened ByteStrings

  // ----- inversion -----

  /** The exponent that the square-and-multiply loop has reached before round a. */
  function Exponent(a: int): nat
    requires -1 <= a <= 253
    decreases 253 - a
  {
    if a == 253 then 1
    else 2 * Exponent(a + 1) + (if a + 1 != 2 && a + 1 != 4 then 1 else 0)
  }

  lemma {:induction false} EarlyExponent(a: int)
    requires 4 <= a <= 253
    ensures Exponent(a) == Pow2(254 - a) - 1
    decreases 253 - a
  {
    if a == 253 {
      assert Pow2(1) == 2;
    } else {
      EarlyExponent(a + 1);
    }
  }

  /** Skipping the multiplication in rounds 2 and 4 makes the exponent p - 2. */
  lemma FinalExponent(a: int)
    requires a == -1
    ensures Exponent(a) == P - 2
  {
    EarlyExponent(a + 5);
    LastRounds(a, Exponent(a + 5));
    Pow2Of250();
  }

  lemma LastRounds(a: int, e: nat)
    requires a == -1 && e == Exponent(a + 5)
    ensures Exponent(a) == 32 * e + 11
  {
    assert Exponent(a + 4) == 2 * e;
    assert Exponent(a + 3) == 4 * e + 1;
    assert Exponent(a + 2) == 8 * e + 2;
    assert Exponent(a + 1) == 16 * e + 5;
  }

  lemma Pow2Of250()
    ensures Pow2(250) * 32 == P + 19
  {
    Pow2Of63();
    assert Pow2(62) == 0x4000_0000_0000_0000;
    Pow2Add(63, 62);
    Pow2Add(125, 125);
  }

  /** A square, and a product by x when there is one, carry the power along. */
  lemma PowerStep(c: int, square: int, next: int, x: int, e: nat, multiply: bool)
    requires Cong(c, Power(x, e)) && Cong(square, c * c)
    requires if multiply then Cong(next, square * x) else next == square
    ensures Cong(next, Power(x, 2 * e + if multiply then 1 else 0))
  {
    CongMul(c, Power(x, e), c, Power(x, e));
    PowerAdd(x, e, e);
    if multiply {
      CongMul(square, Power(x, 2 * e), x, x);
      assert Power(x, 2 * e + 1) == x * Power(x, 2 * e);
    }
  }

  /** One round of the loop of `invert`. */
  method InvertRound(c: Fe, i: Fe, a: int, ghost e: nat)
    requires c != i && Within(c, TIGHT) && Within(i, TIGHT)
    requires Cong(Val(c), Power(Val(i), e))
    modifies c
    ensures Within(c, TIGHT)
    ensures Cong(Val(c), Power(Val(i), 2 * e + if a != 2 && a != 4 then 1 else 0))
  {
    ghost var before, x := Val(c), Val(i);
    MultMod(c, c, c);
    ghost var square := Val(c);
    if a != 2 && a != 4 {
      MultMod(c, c, i);
    }
    PowerStep(before, square, Val(c), x, e, a != 2 && a != 4);
  }

  method Invert(o: Fe, i: Fe)
    requires o.Length == 16 && Within(i, TIGHT)
    modifies o
    ensures Within(o, TIGHT)
    ensures Cong(Val(o), Power(old(Val(i)), P - 2))
  {
    var c := new int64[16];
    forall k | 0 <= k < 16 {
      c[k] := i[k];
    }
    assert c[..] == i[..];
    assert Power(Val(i), 1) == Val(i) * Power(Val(i), 0);
    var a := 253;
    while a >= 0
      invariant -1 <= a <= 253
      invariant Within(c, TIGHT) && Cong(Val(c), Power(Val(i), Exponent(a)))
      modifies c
    {
      InvertRound(c, i, a, Exponent(a));
      a := a - 1;
    }
    FinalExponent(a);
    ghost var inverse := c[..];
    assert Cong(Value(inverse), Power(old(Val(i)), P - 2));
    forall k | 0 <= k < 16 {
      o[k] := c[k];
    }
    assert o[..] == inverse;
  }

  // ----- the ladder -----

  /** The four coordinates the arrays hold, as residues. */
  ghost predicate Holds(a: Fe, c: Fe, b: Fe, d: Fe, s: Ladder)
    reads a, b, c, d
  {
    SameResidues(Ladder(Val(a), Val(c), Val(b), Val(d)), s)
  }

  ghost predicate SameResidues(t: Ladder, s: Ladder) {
    Cong(t.x2, s.x2) && Cong(t.z2, s.z2) && Cong(t.x3, s.x3) && Cong(t.z3, s.z3)
  }

  lemma ReduceResidues(t: Ladder, s: Ladder)
    requires SameResidues(t, s)
    ensures SameResidues(t, Reduce(s))
  {
    CongMod(s.x2);
    CongMod(s.z2);
    CongMod(s.x3);
    CongMod(s.z3);
  }

  ghost predicate AllTight(a: Fe, b: Fe, c: Fe, d: Fe)
    reads a, b, c, d
  {
    Within(a, TIGHT) && Within(b, TIGHT) && Within(c, TIGHT) && Within(d, TIGHT)
  }

  ghost predicate Apart(a: Fe, b: Fe, c: Fe, d: Fe, e: Fe, f: Fe, x: Fe, a24: Fe) {
    && a != b && a != c && a != d && a != e && a != f && a != x && a != a24
    && b != c && b != d && b != e && b != f && b != x && b != a24
    && c != d && c != e && c != f && c != x && c != a24
    && d != e && d != f && d != x && d != a24
    && e != f && e != x && e != a24
    && f != x && f != a24
  }

  /** The arithmetic between the two swaps of a round, up to the four products that RFC 7748
      calls AA, BB, CB and DA. */
  method RoundProducts(a: Fe, b: Fe, c: Fe, d: Fe, e: Fe, f: Fe, x: Fe, a24: Fe)
    requires Apart(a, b, c, d, e, f, x, a24)
    requires AllTight(a, b, c, d) && e.Length == 16 && f.Length == 16
    modifies a, b, c, d, e, f
    ensures AllTight(a, c, d, f) && b.Length == 16 && e.Length == 16
    ensures Cong(Val(d), old((Val(a) + Val(c)) * (Val(a) + Val(c))))
    ensures Cong(Val(f), old((Val(a) - Val(c)) * (Val(a) - Val(c))))
    ensures Cong(Val(a), old((Val(b) + Val(d)) * (Val(a) - Val(c))))
    ensures Cong(Val(c), old((Val(b) - Val(d)) * (Val(a) + Val(c))))
  {
    hide Val, Cong;
    Add(e, a, c);
    Subtract(a, a, c);
    Add(c, b, d);
    Subtract(b, b, d);
    MultMod(d, e, e);
    MultMod(f, a, a);
    MultMod(a, c, a);
    MultMod(c, b, e);
  }

  /** The rest of the round, from those products to the next coordinates. */
  method RoundCoordinates(a: Fe, b: Fe, c: Fe, d: Fe, e: Fe, f: Fe, x: Fe, a24: Fe)
    returns (ghost square: int, ghost scaled: int)
    requires Apart(a, b, c, d, e, f, x, a24)
    requires AllTight(a, c, d, f) && b.Length == 16 && e.Length == 16
    requires Within(x, TIGHT) && Within(a24, TIGHT)
    modifies a, b, c, d, e
    ensures AllTight(a, b, c, d)
    ensures Cong(Val(a), old(Val(d) * Val(f)))
    ensures Cong(scaled, old((Val(d) - Val(f)) * Val(a24)))
    ensures Cong(Val(c), old(Val(d) - Val(f)) * (scaled + old(Val(d))))
    ensures Cong(Val(b), old((Val(a) + Val(c)) * (Val(a) + Val(c))))
    ensures Cong(square, old((Val(a) - Val(c)) * (Val(a) - Val(c))))
    ensures Cong(Val(d), square * old(Val(x)))
  {
    hide Val, Cong;
    Add(e, a, c);
    Subtract(a, a, c);
    MultMod(b, a, a);
    square := Val(b);
    Subtract(c, d, f);
    MultMod(a, c, a24);
    scaled := Val(a);
    Add(a, a, d);
    MultMod(c, c, a);
    MultMod(a, d, f);
    MultMod(d, b, x);
    MultMod(b, e, e);
  }

  /** The four products of the round are those of the RFC's step. */
  lemma ProductResidues(s: Ladder, x2: int, z2: int, x3: int, z3: int, aa: int, bb: int, cb: int, da: int)
    requires Cong(x2, s.x2) && Cong(z2, s.z2) && Cong(x3, s.x3) && Cong(z3, s.z3)
    requires Cong(aa, (x2 + z2) * (x2 + z2)) && Cong(bb, (x2 - z2) * (x2 - z2))
    requires Cong(cb, (x3 + z3) * (x2 - z2)) && Cong(da, (x3 - z3) * (x2 + z2))
    ensures Cong(aa, (s.x2 + s.z2) * (s.x2 + s.z2)) && Cong(bb, (s.x2 - s.z2) * (s.x2 - s.z2))
    ensures Cong(cb, (s.x3 + s.z3) * (s.x2 - s.z2)) && Cong(da, (s.x3 - s.z3) * (s.x2 + s.z2))
  {
    CongAdd(x2, s.x2, z2, s.z2);
    CongAdd(x3, s.x3, z3, s.z3);
    CongMul(x2 + z2, s.x2 + s.z2, x2 + z2, s.x2 + s.z2);
    CongMul(x2 - z2, s.x2 - s.z2, x2 - z2, s.x2 - s.z2);
    CongMul(x3 + z3, s.x3 + s.z3, x2 - z2, s.x2 - s.z2);
    CongMul(x3 - z3, s.x3 - s.z3, x2 + z2, s.x2 + s.z2);
  }

  /** The coordinate (x2, z2) from AA and BB. */
  lemma DoubledResidues(aa: int, bb: int, aa': int, bb': int, scaled: int, x: int, z: int)
    requires Cong(aa, aa') && Cong(bb, bb')
    requires Cong(x, aa * bb) && Cong(scaled, (aa - bb) * A24) && Cong(z, (aa - bb) * (scaled + aa))
    ensures Cong(x, aa' * bb')
    ensures Cong(z, (aa' - bb') * (aa' + A24 * (aa' - bb')))
  {
    CongMul(aa, aa', bb, bb');
    CongAdd(aa, aa', bb, bb');
    CongMul(aa - bb, aa' - bb', A24, A24);
    CongAdd(scaled, (aa' - bb') * A24, aa, aa');
    CongMul(aa - bb, aa' - bb', scaled + aa, (aa' - bb') * A24 + aa');
  }

  /** The coordinate (x3, z3) from CB and DA. */
  lemma AddedResidues(cb: int, da: int, cb': int, da': int, square: int, u: int, u': int, x: int, z: int)
    requires Cong(cb, cb') && Cong(da, da') && Cong(u, u')
    requires Cong(x, (cb + da) * (cb + da)) && Cong(square, (cb - da) * (cb - da)) && Cong(z, square * u)
    ensures Cong(x, (da' + cb') * (da' + cb'))
    ensures Cong(z, u' * ((da' - cb') * (da' - cb')))
  {
    CongAdd(cb, cb', da, da');
    CongMul(cb + da, cb' + da', cb + da, cb' + da');
    CongMul(cb - da, cb' - da', cb - da, cb' - da');
    SquareSign(cb', da');
    CongMul(square, (da' - cb') * (da' - cb'), u, u');
    Swap((da' - cb') * (da' - cb'), u');
  }

  lemma SquareSign(x: int, y: int)
    ensures (x - y) * (x - y) == (y - x) * (y - x)
  {
  }

  lemma Swap(x: int, y: int)
    ensures x * y == y * x
  {
  }

  /** A round's products and results, as residues, are one step of the RFC's ladder. */
  lemma RoundResidues(s: Ladder, x1: int, x2: int, z2: int, x3: int, z3: int, u: int,
      aa: int, bb: int, cb: int, da: int, square: int, scaled: int, t: Ladder)
    requires Cong(x2, s.x2) && Cong(z2, s.z2) && Cong(x3, s.x3) && Cong(z3, s.z3) && Cong(u, x1)
    requires Cong(aa, (x2 + z2) * (x2 + z2)) && Cong(bb, (x2 - z2) * (x2 - z2))
    requires Cong(cb, (x3 + z3) * (x2 - z2)) && Cong(da, (x3 - z3) * (x2 + z2))
    requires Cong(t.x2, aa * bb) && Cong(scaled, (aa - bb) * A24) && Cong(t.z2, (aa - bb) * (scaled + aa))
    requires Cong(t.x3, (cb + da) * (cb + da)) && Cong(square, (cb - da) * (cb - da)) && Cong(t.z3, square * u)
    ensures SameResidues(t, LadderFormulas(s, x1))
  {
    ProductResidues(s, x2, z2, x3, z3, aa, bb, cb, da);
    DoubledResidues(aa, bb, (s.x2 + s.z2) * (s.x2 + s.z2), (s.x2 - s.z2) * (s.x2 - s.z2),
      scaled, t.x2, t.z2);
    AddedResidues(cb, da, (s.x3 + s.z3) * (s.x2 - s.z2), (s.x3 - s.z3) * (s.x2 + s.z2),
      square, u, x1, t.x3, t.z3);
  }

  method Round(a: Fe, b: Fe, c: Fe, d: Fe, e: Fe, f: Fe, x: Fe, a24: Fe, ghost s: Ladder, ghost x1: int)
    requires Apart(a, b, c, d, e, f, x, a24)
    requires AllTight(a, b, c, d) && e.Length == 16 && f.Length == 16
    requires Within(x, TIGHT) && Cong(Val(x), x1)
    requires Within(a24, TIGHT) && Val(a24) == A24
    requires Holds(a, c, b, d, s)
    modifies a, b, c, d, e, f
    ensures AllTight(a, b, c, d) && Holds(a, c, b, d, LadderStep(s, x1))
  {
    ghost var x2, z2, x3, z3 := Val(a), Val(c), Val(b), Val(d);
    RoundProducts(a, b, c, d, e, f, x, a24);
    ghost var aa, bb, cb, da := Val(d), Val(f), Val(a), Val(c);
    ghost var square, scaled := RoundCoordinates(a, b, c, d, e, f, x, a24);
    RoundResidues(s, x1, x2, z2, x3, z3, Val(x), aa, bb, cb, da, square, scaled,
      Ladder(Val(a), Val(c), Val(b), Val(d)));
    ReduceResidues(Ladder(Val(a), Val(c), Val(b), Val(d)), LadderFormulas(s, x1));
  }

  // ----- the scalar's bits -----

  lemma {:induction false} BitOfBytes(z: seq<uint8>, i: nat)
    requires i < 8 * |z|
    ensures Bit(LittleEndian(z), i) == z[i / 8] / Pow2(i % 8) % 2
    decreases |z|
  {
    var rest := LittleEndian(z[1..]);
    if i < 8 {
      assert Pow2(8) == 256;
      LowBitsOfSum(z[0], rest, i, 8);
    } else {
      BitOfBytes(z[1..], i - 8);
      Pow2Add(8, i - 8);
      assert Pow2(8) == 256;
      DropByte(LittleEndian(z), Pow2(i - 8));
      assert LittleEndian(z) / 256 == rest;
      assert z[1..][(i - 8) / 8] == z[i / 8];
    }
  }

  /** Whole multiples of 2^n do not reach the n lowest bits. */
  lemma {:induction false} LowBitsOfSum(x: nat, y: nat, i: nat, n: nat)
    requires i < n
    ensures x + Pow2(n) * y >= 0 && Bit(x + Pow2(n) * y, i) == Bit(x, i)
    decreases i
  {
    var m := Pow2(n - 1) * y;
    assert Pow2(n) * y == 2 * m by {
      Associate(2, Pow2(n - 1), y);
    }
    assert m >= 0;
    assert (x + 2 * m) / 2 == x / 2 + m;
    if i == 0 {
      assert Pow2(0) == 1;
    } else {
      LowBitsOfSum(x / 2, y, i - 1, n - 1);
      HalfThenDivide(x, Pow2(i - 1));
      HalfThenDivide(x + 2 * m, Pow2(i - 1));
    }
  }

  lemma HalfThenDivide(x: nat, n: int)
    requires n > 0
    ensures x / (2 * n) == x / 2 / n
  {
    var q, r := x / 2, x % 2;
    var q', r' := q / n, q % n;
    assert q == n * q' + r';
    assert 2 * n * q' == 2 * (n * q');
    DivModUnique(x, 2 * n, q', 2 * r' + r);
  }

  lemma DropByte(x: nat, n: int)
    requires n > 0
    ensures x / (256 * n) == x / 256 / n
  {
    var q, r := x / 256, x % 256;
    var q', r' := q / n, q % n;
    assert q == n * q' + r';
    assert 256 * n * q' == 256 * (n * q');
    DivModUnique(x, 256 * n, q', 256 * r' + r);
  }

  lemma ShiftAmount(i: nat)
    ensures And(i, 7) == i % 8
  {
    assert Pow2(3) == 8;
    AndLowBits(i, 3);
  }

  // ----- the whole function -----

  /** Swapping before and after every step, as the C code does, is the RFC's deferred swap. */
  lemma DeferredSwap(s: Ladder, swap: int, r: int)
    requires (swap == 0 || swap == 1) && (r == 0 || r == 1)
    ensures ConditionalSwap(r, ConditionalSwap(swap, s)) == ConditionalSwap((swap + r) % 2, s)
  {
  }

  method SwapRoundSwap(a: Fe, b: Fe, c: Fe, d: Fe, e: Fe, f: Fe, x: Fe, a24: Fe, r: int64,
      ghost s: Ladder, ghost swap: int, ghost x1: int)
    requires Apart(a, b, c, d, e, f, x, a24)
    requires AllTight(a, b, c, d) && e.Length == 16 && f.Length == 16
    requires Within(x, TIGHT) && Cong(Val(x), x1)
    requires Within(a24, TIGHT) && Val(a24) == A24
    requires (swap == 0 || swap == 1) && (r == 0 || r == 1)
    requires Holds(a, c, b, d, ConditionalSwap(swap, s))
    modifies a, b, c, d, e, f
    ensures AllTight(a, b, c, d)
    ensures Holds(a, c, b, d, ConditionalSwap(r, LadderStep(ConditionalSwap((swap + r) % 2, s), x1)))
  {
    DeferredSwap(s, swap, r);
    ConditionalSwapInPlace(a, b, r);
    ConditionalSwapInPlace(c, d, r);
    Round(a, b, c, d, e, f, x, a24, ConditionalSwap((swap + r) % 2, s), x1);
    ConditionalSwapInPlace(a, b, r);
    ConditionalSwapInPlace(c, d, r);
  }

  method ClampedCopy(privateKey: array<uint8>) returns (z: array<uint8>)
    requires privateKey.Length == 32
    ensures fresh(z) && z.Length == 32 && z[..] == Clamp(privateKey[..])
  {
    z := new uint8[32];
    forall k | 0 <= k < 32 {
      z[k] := privateKey[k];
    }
    ByteRange(z[31], 127);
    ByteRange(And(z[31], 127), 64);
    z[31] := Or(And(z[31], 127), 64);
    ByteRange(z[0], 248);
    z[0] := And(z[0], 248);
  }

  function Shifted(x: uint8, n: nat): (r: uint8)
    ensures r == x as int / Pow2(n)
  {
    QuotientRange(x, Pow2(n));
    x as int / Pow2(n)
  }

  lemma {:induction false} QuotientRange(x: int, m: int)
    requires x >= 0 && m >= 1
    ensures 0 <= x / m <= x
  {
    if x < m {
      DivModUnique(x, m, 0, x);
    } else {
      QuotientRange(x - m, m);
      DivModUnique(x, m, (x - m) / m + 1, (x - m) % m);
    }
  }

  method BitAt(z: array<uint8>, i: nat) returns (r: int64)
    requires z.Length == 32 && i < 255
    ensures r == Bit(LittleEndian(z[..]), i)
  {
    ShiftAmount(i);
    r := Shifted(z[i / 8], And(i, 7));
    LowBit(r);
    r := And(r, 1);
    BitOfBytes(z[..], i);
  }

  method Constant(low: int64, second: int64) returns (o: Fe)
    requires 0 <= low < 65536 && 0 <= second < 65536
    ensures fresh(o) && Within(o, TIGHT) && Val(o) == low + 65536 * second
  {
    o := new int64[16](_ => 0);
    o[0] := low;
    o[1] := second;
    ghost var zero: seq<int> := seq(16, _ => 0);
    ZeroValue(zero);
    assert Weight(1) == 65536 && Weight(0) == 1;
    ValueUpdate(zero, 0, low);
    ValueUpdate(zero[0 := low], 1, second);
    assert o[..] == zero[0 := low][1 := second];
  }

  /** The loop over the scalar's bits. */
  method LadderLoop(a: Fe, b: Fe, c: Fe, d: Fe, e: Fe, f: Fe, x: Fe, a24: Fe, z: array<uint8>)
    requires Apart(a, b, c, d, e, f, x, a24)
    requires AllTight(a, b, c, d) && e.Length == 16 && f.Length == 16
    requires Within(x, TIGHT) && Within(a24, TIGHT) && Val(a24) == A24 && z.Length == 32
    requires Holds(a, c, b, d, Ladder(1, 0, Val(x), 1))
    modifies a, b, c, d, e, f
    ensures AllTight(a, b, c, d)
    ensures Holds(a, c, b, d, LadderResult(LittleEndian(z[..]), Val(x), BITS))
  {
    hide Val, Cong, LadderStep, LittleEndian;
    var i := 254;
    while i >= 0
      invariant -1 <= i <= 254
      invariant AllTight(a, b, c, d)
      invariant var (s, swap) := RunLadder(LittleEndian(z[..]), Val(x), BITS, 254 - i);
                Holds(a, c, b, d, ConditionalSwap(swap, s))
    {
      ghost var (s, swap) := RunLadder(LittleEndian(z[..]), Val(x), BITS, 254 - i);
      var r := BitAt(z, i);
      SwapRoundSwap(a, b, c, d, e, f, x, a24, r, s, swap, Val(x));
      i := i - 1;
    }
  }

  /** The quotient of the coordinates, written out. */
  method Quotient(o: array<uint8>, a: Fe, c: Fe, ghost s: Ladder)
    requires o.Length == 32 && a != c && Within(a, TIGHT) && Within(c, TIGHT)
    requires Cong(Val(a), s.x2) && Cong(Val(c), s.z2)
    modifies o, a, c
    ensures o[..] == EncodeUCoordinate(Ratio(s))
  {
    ghost var x2, z2 := Val(a), Val(c);
    Invert(c, c);
    CongPower(z2, s.z2, P - 2);
    CongMul(x2, s.x2, Val(c), Power(s.z2, P - 2));
    MultMod(a, a, c);
    Pack(o, a);
  }

  /** The u-coordinate and its copy, the third coordinate of the ladder. */
  method Base(publicKey: array<uint8>) returns (x: Fe, b: Fe)
    requires publicKey.Length == 32
    ensures fresh(x) && fresh(b) && x != b && Within(x, TIGHT) && Within(b, TIGHT)
    ensures Val(x) == Val(b) == DecodeUCoordinate(publicKey[..])
  {
    x, b := new int64[16], new int64[16];
    Unpack(x, publicKey);
    ghost var limbs, key := x[..], publicKey[..];
    forall k | 0 <= k < 16 {
      b[k] := x[k];
    }
    assert b[..] == limbs && x[..] == limbs && publicKey[..] == key;
  }

  /** The field elements that `curve25519_shared_secret` declares, as it initialises them. */
  method InitialElements(publicKey: array<uint8>)
    returns (a: Fe, b: Fe, c: Fe, d: Fe, e: Fe, f: Fe, x: Fe, a24: Fe)
    requires publicKey.Length == 32
    ensures fresh({a, b, c, d, e, f, x, a24}) && Apart(a, b, c, d, e, f, x, a24)
    ensures AllTight(a, b, c, d) && e.Length == 16 && f.Length == 16
    ensures Within(x, TIGHT) && Within(a24, TIGHT) && Val(a24) == A24
    ensures Val(x) == DecodeUCoordinate(publicKey[..])
    ensures Holds(a, c, b, d, Ladder(1, 0, Val(x), 1))
  {
    a24 := Constant(0xdb41, 1);
    a := Constant(1, 0);
    c := Constant(0, 0);
    d := Constant(1, 0);
    e, f := new int64[16], new int64[16];
    x, b := Base(publicKey);
  }

  /** `curve25519_shared_secret` writes the X25519 function of RFC 7748. */
  method SharedSecret(sharedSecret: array<uint8>, privateKey: array<uint8>, publicKey: array<uint8>)
    requires sharedSecret.Length == privateKey.Length == publicKey.Length == 32
    modifies sharedSecret
    ensures sharedSecret[..] == X25519(old(privateKey[..]), old(publicKey[..]))
  {
    var a, b, c, d, e, f, x, a24 := InitialElements(publicKey);
    var z := ClampedCopy(privateKey);
    LadderLoop(a, b, c, d, e, f, x, a24, z);
    Quotient(sharedSecret, a, c, LadderResult(LittleEndian(z[..]), Val(x), BITS));
  }
}
