/** Conversion between 32-byte strings and 16 limbs: `unpack` and `pack` of x25519.c. */
module ByteStrings {
  import opened Words
  import opened Limbs
  import opened Rfc7748
  import opened FieldArithmetic

  lemma LowSeven(x: int)
    ensures And(x, 127) == x % 128
  {
    assert Pow2(7) == 128;
    AndLowBits(x, 7);
  }

  // ----- unpack -----

  function Pair(low: uint8, high: uint8): (r: int)
    ensures 0 <= r < 65536
  {
    low as int + 256 * (high as int)
  }

  lemma {:induction false} PairsValue(n: seq<uint8>, s: seq<int>)
    requires |n| == 2 * |s|
    requires forall i :: 0 <= i < |s| ==> s[i] == Pair(n[2 * i], n[2 * i + 1])
    ensures Value(s) == LittleEndian(n)
  {
    if s != [] {
      PairsValue(n[2..], s[1..]);
      assert n[1..][1..] == n[2..];
    }
  }

  method Unpack(o: Fe, n: array<uint8>)
    requires o.Length == 16 && n.Length == 32
    modifies o
    ensures Digits(o[..]) && Val(o) == DecodeUCoordinate(n[..])
  {
    var i := 0;
    while i < 16
      invariant 0 <= i <= 16
      invariant forall j :: 0 <= j < i ==> o[j] == Pair(n[2 * j], n[2 * j + 1])
    {
      var high: int64 := n[2 * i + 1];
      o[i] := n[2 * i] as int + high * 256;
      i := i + 1;
    }
    LowFifteen(o[15]);
    o[15] := And(o[15], 0x7fff);
    MaskedTop(n[..], o[..]);
  }

  /** Masking limb 15 to 15 bits is masking the top bit of the byte string. */
  lemma MaskedTop(n: seq<uint8>, o: seq<int>)
    requires |n| == 32 && |o| == 16
    requires forall j :: 0 <= j < 15 ==> o[j] == Pair(n[2 * j], n[2 * j + 1])
    requires o[15] == Pair(n[30], n[31]) % 0x8000
    ensures Digits(o) && Value(o) == DecodeUCoordinate(n)
  {
    LowSeven(n[31]);
    var masked := n[31 := n[31] % 128];
    assert o[15] == Pair(masked[30], masked[31]) by {
      MaskedPair(n[30], n[31]);
    }
    PairsValue(masked, o);
  }

  lemma MaskedPair(low: uint8, high: uint8)
    ensures Pair(low, high) % 0x8000 == Pair(low, high % 128)
  {
  }

  lemma LowFifteen(x: int64)
    ensures And(x, 0x7fff) == x % 0x8000
  {
    Pow2Of16();
    AndLowBits(x, 15);
  }

  // ----- pack -----

  // the 16-bit digits of p
  function PrimeLimb(i: nat): int {
    if i == 0 then 0xffed else if i == 15 then 0x7fff else 0xffff
  }

  function PrimeLimbs(): (s: seq<int>)
    ensures |s| == 16
  {
    seq(16, i requires 0 <= i < 16 => PrimeLimb(i))
  }

  lemma PrimeLimbsValue()
    ensures Value(PrimeLimbs()) == P
  {
    var top := [0xffff, 0xffff, 0xffff, 0x7fff];
    var mid := [0xffff, 0xffff, 0xffff, 0xffff];
    var low := [0xffed, 0xffff, 0xffff, 0xffff];
    assert PrimeLimbs() == low + (mid + (mid + top));
    assert Value(top) == 0x7fff_ffff_ffff_ffff && Value(mid) == 0xffff_ffff_ffff_ffff;
    assert Value(low) == 0xffff_ffff_ffff_ffed && Weight(4) == 0x1_0000_0000_0000_0000;
    ValueAppend(low, mid + (mid + top));
    ValueAppend(mid, mid + top);
    ValueAppend(mid, top);
  }

  lemma LowBit(x: int64)
    ensures And(x, 1) == x % 2
  {
    assert Pow2(1) == 2;
    AndLowBits(x, 1);
  }

  lemma LowByte(x: int64)
    ensures And(x, 0xff) == x % 256
  {
    assert Pow2(8) == 256;
    AndLowBits(x, 8);
  }

  /** What the borrow loop of `pack` has done before limb i: the limbs below i - 1 are
      digits, limb i - 1 still carries its sign, and together they are the difference. */
  ghost predicate PartlySubtracted(t: seq<int>, m: seq<int>, i: nat)
    requires |t| == 16 && |m| == 16 && 1 <= i <= 16
  {
    && (forall j :: 0 <= j < i - 1 ==> 0 <= m[j] < 65536)
    && -65536 <= m[i - 1] < 65536
    && (i == 16 ==> -0x8000 <= m[15] <= 0x8000)
    && Value(m[..i]) == Value(t[..i]) - Value(PrimeLimbs()[..i])
  }

  lemma FirstSubtracted(t: seq<int>, m: seq<int>)
    requires Digits(t) && |m| == 16 && m[0] == t[0] - 0xffed
    ensures PartlySubtracted(t, m, 1)
  {
    assert m[..1] == [m[0]] && t[..1] == [t[0]] && PrimeLimbs()[..1] == [0xffed];
  }

  lemma SubtractLimb(t: seq<int>, m: seq<int>, m': seq<int>, i: nat)
    requires Digits(t) && |m| == 16 && 1 <= i < 16
    requires PartlySubtracted(t, m, i)
    requires var borrow := m[i - 1] / 65536 % 2;
             m' == m[i := t[i] - PrimeLimb(i) - borrow][i - 1 := m[i - 1] % 65536]
    ensures PartlySubtracted(t, m', i + 1)
  {
    var q := m[i - 1] / 65536;
    assert q == 0 || q == -1;
    assert m[i - 1] % 65536 == m[i - 1] - 65536 * q;
    assert m'[i] == t[i] - PrimeLimb(i) + q;
    BorrowValue(t, m, m', i, q);
  }

  lemma BorrowValue(t: seq<int>, m: seq<int>, m': seq<int>, i: nat, q: int)
    requires |t| == |m| == |m'| == 16 && 1 <= i < 16
    requires m'[..i - 1] == m[..i - 1]
    requires m'[i - 1] == m[i - 1] - 65536 * q && m'[i] == t[i] - PrimeLimb(i) + q
    requires Value(m[..i]) == Value(t[..i]) - Value(PrimeLimbs()[..i])
    ensures Value(m'[..i + 1]) == Value(t[..i + 1]) - Value(PrimeLimbs()[..i + 1])
  {
    ValueSnoc(t, i);
    ValueSnoc(PrimeLimbs(), i);
    ValueSnoc(m', i);
    ValueSnoc(m, i - 1);
    ValueSnoc(m', i - 1);
    BorrowArith(Weight(i - 1), q, m[i - 1], t[i], PrimeLimb(i));
  }

  lemma BorrowArith(w: int, q: int, d: int, x: int, y: int)
    ensures w * (d - 65536 * q) + 65536 * w * (x - y + q) == w * d + 65536 * w * x - 65536 * w * y
  {
    assert w * (d - 65536 * q) == w * d - 65536 * w * q;
    assert 65536 * w * (x - y + q) == 65536 * w * x - 65536 * w * y + 65536 * w * q;
  }

  /** The sign of limb 15 is the sign of the whole difference. */
  lemma DifferenceSign(t: seq<int>, m: seq<int>)
    requires Digits(t) && |m| == 16 && PartlySubtracted(t, m, 16)
    ensures Value(m) == Value(t) - P
    ensures m[15] < 0 <==> Value(t) < P
  {
    assert m[..16] == m && t[..16] == t && PrimeLimbs()[..16] == PrimeLimbs();
    PrimeLimbsValue();
    ValueSnoc(m, 15);
    DigitsValue(m, 15);
    TopLimbSign(Weight(15), m[15], Value(m[..15]));
  }

  lemma TopLimbSign(w: int, d: int, low: int)
    requires 0 <= low < w
    ensures d < 0 <==> low + w * d < 0
  {
    if d < 0 {
      assert w * (-d) >= w;
      assert w * d == -(w * (-d));
    } else {
      assert w * d >= 0;
    }
  }

  /** The inner loop of `pack`: m := t - p, and whether that borrowed. */
  method SubtractPrime(m: Fe, t: Fe) returns (b: int64)
    requires m.Length == 16 && m != t && Digits(t[..])
    modifies m
    ensures Val(m) == Val(t) - P
    ensures b == if Val(t) < P then 1 else 0
    ensures b == 0 ==> Digits(m[..])
  {
    hide And, PartlySubtracted, Value;
    m[0] := t[0] - 0xffed;
    ghost var limbs: seq<int> := t[..];
    FirstSubtracted(limbs, m[..]);
    var i := 1;
    while i < 15
      invariant 1 <= i <= 15
      invariant PartlySubtracted(limbs, m[..], i)
    {
      ghost var before: seq<int> := m[..];
      LowBit(m[i - 1] / 65536);
      m[i] := t[i] - 0xffff - And(m[i - 1] / 65536, 1);
      LowHalf(m[i - 1]);
      m[i - 1] := And(m[i - 1], 0xffff);
      SubtractLimb(limbs, before, m[..], i);
      i := i + 1;
    }
    ghost var before: seq<int> := m[..];
    LowBit(m[14] / 65536);
    m[15] := t[15] - 0x7fff - And(m[14] / 65536, 1);
    LowBit(m[15] / 65536);
    b := And(m[15] / 65536, 1);
    LowHalf(m[14]);
    m[14] := And(m[14], 0xffff);
    SubtractLimb(limbs, before, m[..], 15);
    DifferenceSign(limbs, m[..]);
  }

  lemma {:induction false} BytesOfDigits(s: seq<int>, i: nat)
    requires i < |s| && forall k :: 0 <= k < |s| ==> 0 <= s[k] < 65536
    ensures 0 <= Value(s)
    ensures Bytes(Value(s), 2 * |s|)[2 * i] == (s[i] % 256)
    ensures Bytes(Value(s), 2 * |s|)[2 * i + 1] == (s[i] / 256)
  {
    var v, rest := Value(s), Value(s[1..]);
    DigitsNonNegative(s);
    DigitsNonNegative(s[1..]);
    SplitDigit(s[0], rest);
    var n: nat := 2 * |s|;
    assert Bytes(v, n) == [v % 256] + Bytes(v / 256, n - 1);
    assert Bytes(v / 256, n - 1) == [v / 256 % 256] + Bytes(rest, n - 2);
    if i > 0 {
      BytesOfDigits(s[1..], i - 1);
    }
  }

  lemma DigitsNonNegative(s: seq<int>)
    requires forall k :: 0 <= k < |s| ==> 0 <= s[k] < 65536
    ensures 0 <= Value(s)
  {
    assert s[..|s|] == s;
    DigitsValue(s, |s|);
  }

  lemma SplitDigit(d: int, rest: int)
    requires 0 <= d < 65536 && 0 <= rest
    ensures var v := d + 65536 * rest;
            v % 256 == d % 256 && v / 256 % 256 == d / 256 && v / 256 / 256 == rest
  {
    var v := d + 65536 * rest;
    assert v / 256 == d / 256 + 256 * rest;
  }

  /** Three carry passes give digits of the same number mod p. */
  lemma ThreePasses(s: seq<int>)
    requires Bounded(s, 0x4000_0000_0000_0000)
    ensures Bounded(Carried(s), 0x4000_0000_0000_0000)
    ensures Bounded(Carried(Carried(s)), 0x4000_0000_0000_0000)
    ensures Digits(Carried(Carried(Carried(s))))
    ensures Cong(Value(Carried(Carried(Carried(s)))), Value(s))
  {
    var twice := Carried(Carried(s));
    TwoPasses(s, Value(s), 0);
    ThirdPass(twice);
    CarriedValue(twice);
    CongByMultiple(Value(Carried(twice)), Value(twice), -2 * CarryInto(twice, |twice|));
  }

  method Pack(o: array<uint8>, n: Fe)
    requires o.Length == 32 && Within(n, 0x4000_0000_0000_0000)
    modifies o
    ensures o[..] == EncodeUCoordinate(Val(n))
  {
    var t := new int64[16];
    forall k | 0 <= k < 16 {
      t[k] := n[k];
    }
    assert t[..] == n[..];
    ThreePasses(t[..]);
    Carry(t);
    Carry(t);
    Carry(t);
    FinalReduction(t);
    WriteBytes(o, t);
  }

  /** Two conditional subtractions of p bring any 256-bit number below p. */
  method FinalReduction(t: Fe)
    requires Digits(t[..])
    modifies t
    ensures Digits(t[..]) && Val(t) == Mod(old(Val(t)))
  {
    var m := new int64[16];
    ghost var v := Val(t);
    BelowTwicePrime(t[..]);
    var j := 0;
    while j < 2
      invariant 0 <= j <= 2
      invariant Digits(t[..]) && Cong(Val(t), v)
      invariant 0 <= Val(t) < if j == 0 then 2 * P + 38 else if j == 1 then P + 38 else P
    {
      ghost var before := Val(t);
      var b := SubtractPrime(m, t);
      CongByMultiple(before - P, before, -1);
      ConditionalSwapInPlace(t, m, 1 - b);
      j := j + 1;
    }
  }

  method WriteBytes(o: array<uint8>, t: Fe)
    requires o.Length == 32 && Digits(t[..])
    modifies o
    ensures 0 <= Val(t) && o[..] == Bytes(Val(t), 32)
  {
    BelowTwicePrime(t[..]);
    var i := 0;
    while i < 16
      invariant 0 <= i <= 16
      invariant forall k :: 0 <= k < i ==> o[2 * k] == t[k] % 256 && o[2 * k + 1] == t[k] / 256
    {
      LowByte(t[i]);
      o[2 * i] := And(t[i], 0xff);
      o[2 * i + 1] := t[i] / 256;
      i := i + 1;
    }
    DigitBytes(t[..], o[..]);
  }

  lemma BelowTwicePrime(s: seq<int>)
    requires Digits(s)
    ensures 0 <= Value(s) < 2 * P + 38
  {
    assert s[..|s|] == s;
    DigitsValue(s, |s|);
    Weight16();
  }

  lemma DigitBytes(s: seq<int>, o: seq<uint8>)
    requires Digits(s) && 0 <= Value(s) && |o| == 32
    requires forall k :: 0 <= k < 16 ==> o[2 * k] == (s[k] % 256) && o[2 * k + 1] == (s[k] / 256)
    ensures o == Bytes(Value(s), 2 * |s|)
  {
    forall i | 0 <= i < 32
      ensures o[i] == Bytes(Value(s), 2 * |s|)[i]
    {
      BytesOfDigits(s, i / 2);
      assert i == 2 * (i / 2) || i == 2 * (i / 2) + 1;
    }
  }
}
