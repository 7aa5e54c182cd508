/** X25519 as section 5 of RFC 7748 defines it, over integers mod p = 2^255 - 19. */
module Rfc7748 {
  import opened Words
  import opened Limbs

  function Mod(x: int): (r: int)
    ensures 0 <= r < P
  {
    x % P
  }

  function Power(x: int, e: nat): int {
    if e == 0 then 1 else x * Power(x, e - 1)
  }

  // ----- byte strings -----

  function LittleEndian(b: seq<uint8>): (v: int)
    ensures v >= 0
  {
    if b == [] then 0 else b[0] + 256 * LittleEndian(b[1..])
  }

  function Bytes(v: nat, n: nat): (b: seq<uint8>)
    ensures |b| == n
  {
    if n == 0 then [] else [v % 256] + Bytes(v / 256, n - 1)
  }

  function DecodeUCoordinate(u: seq<uint8>): (v: int)
    requires |u| == 32
    ensures v >= 0
  {
    ByteRange(u[31], 127);
    LittleEndian(u[31 := And(u[31], 127)])
  }

  function EncodeUCoordinate(x: int): (b: seq<uint8>)
    ensures |b| == 32
  {
    Bytes(Mod(x), 32)
  }

  function Clamp(k: seq<uint8>): (z: seq<uint8>)
    requires |k| == 32
    ensures |z| == 32
  {
    ByteRange(k[0], 248);
    ByteRange(k[31], 127);
    ByteRange(And(k[31], 127), 64);
    k[0 := And(k[0], 248)][31 := Or(And(k[31], 127), 64)]
  }

  // ----- the Montgomery ladder -----

  datatype Ladder = Ladder(x2: int, z2: int, x3: int, z3: int)

  function ConditionalSwap(swap: int, s: Ladder): Ladder {
    if swap == 1 then Ladder(s.x3, s.z3, s.x2, s.z2) else s
  }

  const A24: int := 121665

  function Reduce(s: Ladder): Ladder {
    Ladder(Mod(s.x2), Mod(s.z2), Mod(s.x3), Mod(s.z3))
  }

  function LadderFormulas(s: Ladder, x1: int): Ladder {
    var a := s.x2 + s.z2;
    var aa := a * a;
    var b := s.x2 - s.z2;
    var bb := b * b;
    var e := aa - bb;
    var c := s.x3 + s.z3;
    var d := s.x3 - s.z3;
    var da := d * a;
    var cb := c * b;
    Ladder(aa * bb, e * (aa + A24 * e), (da + cb) * (da + cb), x1 * ((da - cb) * (da - cb)))
  }

  function LadderStep(s: Ladder, x1: int): Ladder {
    Reduce(LadderFormulas(s, x1))
  }

  /** The formulas double the first point of v^2 = u^3 + 486662 u^2 + u and add the two points, whose
      difference has u-coordinate x1. */
  lemma StepDoublesAndAdds(s: Ladder, x1: int)
    ensures var x, z := s.x2, s.z2;
            LadderStep(s, x1) == Reduce(Ladder(
              (x * x - z * z) * (x * x - z * z),
              4 * (x * z) * (x * x + 486662 * (x * z) + z * z),
              4 * ((x * s.x3 - z * s.z3) * (x * s.x3 - z * s.z3)),
              x1 * (4 * ((x * s.z3 - z * s.x3) * (x * s.z3 - z * s.x3)))))
  {
    hide Mod;
    var x, z, u, w := s.x2, s.z2, s.x3, s.z3;
    var t := LadderFormulas(s, x1);
    Doubled(x, z);
    Added(x, z, u, w);
    assert t.x2 == ((x + z) * (x + z)) * ((x - z) * (x - z));
    assert t.x3 == ((u - w) * (x + z) + (u + w) * (x - z)) * ((u - w) * (x + z) + (u + w) * (x - z));
    assert t.z3 == x1 * (((u - w) * (x + z) - (u + w) * (x - z)) * ((u - w) * (x + z) - (u + w) * (x - z)));
  }

  lemma Doubled(x: int, z: int)
    ensures ((x + z) * (x + z)) * ((x - z) * (x - z)) == (x * x - z * z) * (x * x - z * z)
    ensures var e := (x + z) * (x + z) - (x - z) * (x - z);
            e * ((x + z) * (x + z) + A24 * e) == 4 * (x * z) * (x * x + 486662 * (x * z) + z * z)
  {
    SquareOfSum(x, z);
    ProductOfSquares(x + z, x - z);
    SumTimesDifference(x, z);
    SameProduct((x + z) * (x + z) - (x - z) * (x - z), 4 * (x * z), (x + z) * (x + z), x * x + 2 * (x * z) + z * z, x * z);
  }

  lemma SameProduct(e: int, f: int, a: int, b: int, y: int)
    requires e == f == 4 * y && a == b
    ensures e * (a + A24 * e) == f * (b + 486660 * y)
  {
  }

  lemma Added(x: int, z: int, u: int, w: int)
    ensures var c := (u - w) * (x + z) + (u + w) * (x - z); c * c == 4 * ((x * u - z * w) * (x * u - z * w))
    ensures var d := (u - w) * (x + z) - (u + w) * (x - z); d * d == 4 * ((x * w - z * u) * (x * w - z * u))
  {
    CrossProducts(x, z, u, w);
    Squared(x * u - z * w);
    Squared(x * w - z * u);
  }

  lemma SquareOfSum(x: int, z: int)
    ensures (x + z) * (x + z) == x * x + 2 * (x * z) + z * z
    ensures (x - z) * (x - z) == x * x - 2 * (x * z) + z * z
  {
  }

  lemma SumTimesDifference(x: int, z: int)
    ensures (x + z) * (x - z) == x * x - z * z
  {
  }

  lemma ProductOfSquares(a: int, b: int)
    ensures (a * a) * (b * b) == (a * b) * (a * b)
  {
  }

  lemma CrossProducts(x: int, z: int, u: int, w: int)
    ensures (u - w) * (x + z) + (u + w) * (x - z) == 2 * (x * u - z * w)
    ensures (u - w) * (x + z) - (u + w) * (x - z) == -2 * (x * w - z * u)
  {
  }

  lemma Squared(y: int)
    ensures (2 * y) * (2 * y) == 4 * (y * y) && (-2 * y) * (-2 * y) == 4 * (y * y)
  {
  }

  function Bit(k: nat, t: nat): (b: int)
    ensures b == 0 || b == 1
  {
    k / Pow2(t) % 2
  }

  /** The ladder state and the pending swap after the n highest of the given number of
      bits have been processed. */
  function RunLadder(k: nat, x1: int, bits: nat, n: nat): (r: (Ladder, int))
    requires n <= bits
    ensures r.1 == 0 || r.1 == 1
  {
    if n == 0 then (Ladder(1, 0, x1, 1), 0)
    else
      var (s, swap) := RunLadder(k, x1, bits, n - 1);
      var kt := Bit(k, bits - n);
      (LadderStep(ConditionalSwap((swap + kt) % 2, s), x1), kt)
  }

  function Ratio(s: Ladder): int {
    s.x2 * Power(s.z2, P - 2)
  }

  function LadderResult(k: nat, u: int, bits: nat): Ladder {
    var (s, swap) := RunLadder(k, u, bits, bits);
    ConditionalSwap(swap, s)
  }

  const BITS: nat := 255

  function X25519(k: seq<uint8>, u: seq<uint8>): (r: seq<uint8>)
    requires |k| == 32 && |u| == 32
    ensures |r| == 32
  {
    EncodeUCoordinate(Ratio(LadderResult(LittleEndian(Clamp(k)), DecodeUCoordinate(u), BITS)))
  }

  // ----- congruence mod p -----

  predicate Cong(x: int, y: int) {
    Mod(x) == Mod(y)
  }

  lemma CongByMultiple(x: int, y: int, k: int)
    requires x == y + k * P
    ensures Cong(x, y)
  {
    DivModUnique(x, P, y / P + k, y % P);
  }

  lemma Quotients(x: int, y: int) returns (k: int)
    requires Cong(x, y)
    ensures x == y + k * P
  {
    k := x / P - y / P;
  }

  lemma CongAdd(x: int, x': int, y: int, y': int)
    requires Cong(x, x') && Cong(y, y')
    ensures Cong(x + y, x' + y') && Cong(x - y, x' - y')
  {
    var k := Quotients(x, x');
    var l := Quotients(y, y');
    CongByMultiple(x + y, x' + y', k + l);
    CongByMultiple(x - y, x' - y', k - l);
  }

  lemma CongMul(x: int, x': int, y: int, y': int)
    requires Cong(x, x') && Cong(y, y')
    ensures Cong(x * y, x' * y')
  {
    var k := Quotients(x, x');
    var l := Quotients(y, y');
    ExpandProduct(x', k, y', l, P);
    CongByMultiple(x * y, x' * y', x' * l + k * y' + k * l * P);
  }

  lemma ExpandProduct(a: int, k: int, b: int, l: int, p: int)
    ensures (a + k * p) * (b + l * p) == a * b + (a * l + k * b + k * l * p) * p
  {
    calc {
      (a + k * p) * (b + l * p);
      a * (b + l * p) + k * p * (b + l * p);
      a * b + a * (l * p) + k * p * b + k * p * (l * p);
      a * b + (a * l) * p + (k * b) * p + (k * l * p) * p;
      a * b + (a * l + k * b + k * l * p) * p;
    }
  }

  lemma CongMod(x: int)
    ensures Cong(Mod(x), x)
  {
  }

  lemma {:induction false} CongPower(x: int, y: int, e: nat)
    requires Cong(x, y)
    ensures Cong(Power(x, e), Power(y, e))
    decreases e
  {
    if e > 0 {
      CongPower(x, y, e - 1);
      CongMul(x, y, Power(x, e - 1), Power(y, e - 1));
    }
  }

  lemma {:induction false} PowerAdd(x: int, d: nat, e: nat)
    ensures Power(x, d + e) == Power(x, d) * Power(x, e)
    decreases d
  {
    if d == 0 {
    } else {
      PowerAdd(x, d - 1, e);
      assert Power(x, d + e) == x * Power(x, d - 1 + e);
      Associate(x, Power(x, d - 1), Power(x, e));
    }
  }

  lemma Associate(x: int, y: int, z: int)
    ensures x * (y * z) == (x * y) * z
  {
  }
}
