/** Numbers as little-endian limbs in radix 2^16, the carry chain over 16 limbs and the
    bounds it restores. */
module Limbs {
  import opened Words

  const P: int := 0x7fff_ffff_ffff_ffff_ffff_ffff_ffff_ffff_ffff_ffff_ffff_ffff_ffff_ffff_ffff_ffed

  function Weight(i: nat): (w: int)
    ensures w >= 1
  {
    if i == 0 then 1 else 65536 * Weight(i - 1)
  }

  function Value(s: seq<int>): int {
    if s == [] then 0 else s[0] + 65536 * Value(s[1..])
  }

  lemma {:induction false} WeightAdd(i: nat, j: nat)
    ensures Weight(i + j) == Weight(i) * Weight(j)
  {
    if i == 0 {
    } else {
      WeightAdd(i - 1, j);
      assert Weight(i + j) == 65536 * Weight(i - 1 + j);
    }
  }

  /** 2^256 is twice the prime plus 38, which is why a carry out of limb 15 returns as 38. */
  lemma Weight16()
    ensures Weight(16) == 2 * P + 38
  {
    assert Weight(4) == 0x1_0000_0000_0000_0000;
    WeightAdd(4, 4);
    WeightAdd(8, 8);
  }

  lemma {:induction false} ValueUpdate(s: seq<int>, i: nat, x: int)
    requires i < |s|
    ensures Value(s[i := x]) == Value(s) + (x - s[i]) * Weight(i)
    decreases i
  {
    if i == 0 {
      assert s[0 := x][1..] == s[1..];
    } else {
      assert s[i := x][1..] == s[1..][i - 1 := x];
      ValueUpdate(s[1..], i - 1, x);
      Distribute(x - s[i], Weight(i - 1));
    }
  }

  lemma ValueIncrease(s: seq<int>, i: nat, d: int)
    requires i < |s|
    ensures Value(s[i := s[i] + d]) == Value(s) + d * Weight(i)
  {
    ValueUpdate(s, i, s[i] + d);
  }

  lemma Distribute(d: int, w: int)
    ensures 65536 * (d * w) == d * (65536 * w)
  {
  }

  lemma {:induction false} ValueAppend(s: seq<int>, t: seq<int>)
    ensures Value(s + t) == Value(s) + Weight(|s|) * Value(t)
  {
    if s == [] {
      assert s + t == t;
    } else {
      assert (s + t)[1..] == s[1..] + t;
      ValueAppend(s[1..], t);
      Distribute(Value(t), Weight(|s| - 1));
    }
  }

  lemma ValueSnoc(s: seq<int>, i: nat)
    requires i < |s|
    ensures Value(s[..i + 1]) == Value(s[..i]) + Weight(i) * s[i]
  {
    assert s[..i + 1] == s[..i] + [s[i]];
    ValueAppend(s[..i], [s[i]]);
    assert Value([s[i]]) == s[i];
  }

  // ----- the carry chain -----

  /** The carry into limb i of an addition of s, with carries below limb 0 absent. */
  function CarryInto(s: seq<int>, i: nat): int
    requires i <= |s|
  {
    if i == 0 then 0 else (s[i - 1] + CarryInto(s, i - 1)) / 65536
  }

  function LowLimbs(s: seq<int>): (r: seq<int>)
    ensures |r| == |s|
  {
    seq(|s|, i requires 0 <= i < |s| => (s[i] + CarryInto(s, i)) % 65536)
  }

  /** One pass of carrying: every limb keeps its low 16 bits, and what leaves limb 15
      comes back into limb 0 times 38. */
  function Carried(s: seq<int>): (r: seq<int>)
    requires |s| == 16
    ensures |r| == 16
  {
    LowLimbs(s)[0 := s[0] % 65536 + 38 * CarryInto(s, |s|)]
  }

  lemma {:induction false} LowLimbsValue(s: seq<int>, i: nat)
    requires i <= |s|
    ensures Value(LowLimbs(s)[..i]) + Weight(i) * CarryInto(s, i) == Value(s[..i])
  {
    if i == 0 {
    } else {
      LowLimbsValue(s, i - 1);
      ValueSnoc(s, i - 1);
      ValueSnoc(LowLimbs(s), i - 1);
      SplitLimb(Weight(i - 1), s[i - 1], CarryInto(s, i - 1));
    }
  }

  lemma SplitLimb(w: int, limb: int, c: int)
    ensures w * ((limb + c) % 65536) + 65536 * w * ((limb + c) / 65536) == w * limb + w * c
  {
    var x := limb + c;
    var q, r := x / 65536, x % 65536;
    assert x == 65536 * q + r;
    Regroup(w, q, r);
    assert w * x == w * limb + w * c;
  }

  lemma Regroup(w: int, q: int, r: int)
    ensures w * (65536 * q + r) == 65536 * w * q + w * r
  {
  }

  lemma LowLimbsWhole(s: seq<int>)
    ensures Value(LowLimbs(s)) + Weight(|s|) * CarryInto(s, |s|) == Value(s)
  {
    LowLimbsValue(s, |s|);
    assert LowLimbs(s)[..|s|] == LowLimbs(s) && s[..|s|] == s;
  }

  lemma CarriedFromLow(s: seq<int>)
    requires |s| == 16
    ensures Value(Carried(s)) == Value(LowLimbs(s)) + 38 * CarryInto(s, |s|)
  {
    assert LowLimbs(s)[0] == s[0] % 65536;
    assert Carried(s)[1..] == LowLimbs(s)[1..];
  }

  /** A carry pass changes the value by an exact multiple of 2p. */
  lemma CarriedValue(s: seq<int>)
    requires |s| == 16
    ensures Value(Carried(s)) == Value(s) - 2 * P * CarryInto(s, |s|)
  {
    LowLimbsWhole(s);
    CarriedFromLow(s);
    Weight16();
    FoldCarry(Weight(|s|), CarryInto(s, |s|));
  }

  lemma FoldCarry(w: int, c: int)
    requires w == 2 * P + 38
    ensures 38 * c == w * c - 2 * P * c
  {
  }

  predicate Bounded(s: seq<int>, b: int) {
    |s| == 16 && forall i :: 0 <= i < 16 ==> -b <= s[i] <= b
  }

  // every limb but the lowest has 16 bits
  predicate UpperReduced(s: seq<int>) {
    |s| == 16 && forall i :: 1 <= i < 16 ==> 0 <= s[i] < 65536
  }

  // the result of two carry passes, and of every field operation
  predicate Reduced(s: seq<int>) {
    UpperReduced(s) && -38 <= s[0] <= 65573
  }

  predicate Digits(s: seq<int>) {
    |s| == 16 && forall i :: 0 <= i < 16 ==> 0 <= s[i] < 65536
  }

  lemma {:induction false} CarryBound(s: seq<int>, i: nat, b: int)
    requires Bounded(s, b) && i <= 16
    ensures -(b + 65536) <= 32768 * CarryInto(s, i) <= b + 65536
  {
    assert -b <= s[0] <= b;
    if i > 0 {
      CarryBound(s, i - 1, b);
      var x := s[i - 1] + CarryInto(s, i - 1);
      assert x - 65535 <= 65536 * (x / 65536) <= x;
    }
  }

  /** The first pass: whatever the limbs were, only limb 0 keeps more than 16 bits. */
  lemma FirstPass(s: seq<int>)
    requires Bounded(s, 0x4000_0000_0000_0000)
    ensures UpperReduced(Carried(s)) && -0x20_0000_0000_0000 <= Carried(s)[0] <= 0x20_0000_0000_0000
  {
    CarryBound(s, |s|, 0x4000_0000_0000_0000);
  }

  lemma {:induction false} SmallCarry(s: seq<int>, i: nat)
    requires UpperReduced(s) && -0x20_0000_0000_0000 <= s[0] <= 0x20_0000_0000_0000
    requires 4 <= i <= 16
    ensures -1 <= CarryInto(s, i) <= 1
  {
    if i == 4 {
      assert CarryInto(s, 1) == s[0] / 65536;
      assert CarryInto(s, 2) == (s[1] + CarryInto(s, 1)) / 65536;
      assert CarryInto(s, 3) == (s[2] + CarryInto(s, 2)) / 65536;
    } else {
      SmallCarry(s, i - 1);
    }
  }

  /** The second pass leaves limb 0 within 38 of 16 bits. */
  lemma SecondPass(s: seq<int>)
    requires UpperReduced(s) && -0x20_0000_0000_0000 <= s[0] <= 0x20_0000_0000_0000
    ensures Reduced(Carried(s))
  {
    SmallCarry(s, |s|);
  }

  lemma {:induction false} CarryChain(s: seq<int>, i: nat)
    requires Reduced(s) && 1 <= i <= 16
    ensures -1 <= CarryInto(s, i) <= 1
    ensures CarryInto(s, i) == 1 ==> s[0] >= 65536
    ensures CarryInto(s, i) == -1 ==> s[0] < 0
  {
    if i == 1 {
      assert CarryInto(s, 1) == s[0] / 65536;
    } else {
      CarryChain(s, i - 1);
    }
  }

  /** The third pass: the carry that leaves limb 15 can only be one that entered at limb 0,
      and then limb 0 has room for the 38 that comes back. */
  lemma ThirdPass(s: seq<int>)
    requires Reduced(s)
    ensures Digits(Carried(s))
  {
    CarryChain(s, |s|);
    assert CarryInto(s, 0) == 0;
  }

  lemma DigitBound(w: int, d: int)
    requires w >= 1 && 0 <= d < 65536
    ensures 0 <= w * d <= w * 65535
  {
  }

  lemma {:induction false} DigitsValue(s: seq<int>, i: nat)
    requires i <= |s| && forall k :: 0 <= k < i ==> 0 <= s[k] < 65536
    ensures 0 <= Value(s[..i]) < Weight(i)
  {
    if i > 0 {
      DigitsValue(s, i - 1);
      ValueSnoc(s, i - 1);
      DigitBound(Weight(i - 1), s[i - 1]);
    }
  }
}
