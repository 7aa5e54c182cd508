/** The field operations of x25519.c on arrays of 16 limbs, updated in place. Every
    intermediate of every operation is held in an int64 variable. */
module FieldArithmetic {
  import opened Words
  import opened Limbs
  import opened Rfc7748

  type Fe = array<int64>

  ghost function Val(o: Fe): int
    reads o
  {
    Value(o[..])
  }

  // the limbs every multiplication and swap leaves behind
  const TIGHT: int := 65573
  // the limbs after one addition or subtraction of those
  const LOOSE: int := 131146

  ghost predicate Within(o: Fe, b: int)
    reads o
  {
    o.Length == 16 && forall i :: 0 <= i < 16 ==> -b <= o[i] <= b
  }

  method Carry(o: Fe)
    requires Within(o, 0x4000_0000_0000_0000)
    modifies o
    ensures o[..] == Carried(old(o[..]))
  {
    ghost var s: seq<int> := o[..];
    var i := 0;
    while i < 16
      invariant 0 <= i <= 16
      invariant PartlyCarried(s, o[..], i)
    {
      CarriesFit(s, o[..], i);
      ghost var before: seq<int> := o[..];
      CarryLimb(o, i);
      CarryOne(s, before, o[..], i);
      i := i + 1;
    }
    FullyCarried(s, o[..]);
  }

  /** The loop body of `carry`. */
  method CarryLimb(o: Fe, i: nat)
    requires o.Length == 16 && i < 16
    requires -0x4001_0000_0000_0000 <= o[i] <= 0x4001_0000_0000_0000
    requires -0x4001_0000_0000_0000 <= o[(i + 1) % 16] <= 0x4001_0000_0000_0000
    modifies o
    ensures o[..] == CarriedLimb(old(o[..]), i)
  {
    var high: int64 := o[i] / 65536;
    var back: int64 := if i == 15 then 38 * high else 1 * high;
    var next := (i + 1) % 16;
    o[next] := o[next] + back;
    LowHalf(o[i]);
    o[i] := And(o[i], 0xffff);
  }

  ghost function CarriedLimb(o: seq<int>, i: nat): (r: seq<int>)
    requires |o| == 16 && i < 16
    ensures |r| == 16
  {
    var next, back := if i == 15 then 0 else i + 1, (if i == 15 then 38 else 1) * (o[i] / 65536);
    o[next := o[next] + back][i := o[i] % 65536]
  }

  /** What the limbs hold when the carry loop reaches limb i. */
  ghost predicate PartlyCarried(s: seq<int>, o: seq<int>, i: nat)
    requires |s| == 16 && |o| == 16 && i <= 16
  {
    && (forall j :: 1 <= j < i ==> o[j] == (s[j] + CarryInto(s, j)) % 65536)
    && (i < 16 ==> o[i] == s[i] + CarryInto(s, i))
    && (forall j :: i < j < 16 ==> o[j] == s[j])
    && (0 < i < 16 ==> o[0] == s[0] % 65536)
    && (i == 16 ==> o[0] == s[0] % 65536 + 38 * CarryInto(s, |s|))
  }

  lemma CarryOne(s: seq<int>, o: seq<int>, o': seq<int>, i: nat)
    requires |s| == 16 && |o| == 16 && i < 16
    requires PartlyCarried(s, o, i) && o' == CarriedLimb(o, i)
    ensures PartlyCarried(s, o', i + 1)
  {
    assert CarryInto(s, i + 1) == o[i] / 65536;
    assert i == 0 ==> CarryInto(s, 0) == 0;
  }

  lemma FullyCarried(s: seq<int>, o: seq<int>)
    requires |s| == 16 && |o| == 16
    requires PartlyCarried(s, o, 16)
    ensures o == Carried(s)
  {
    assert CarryInto(s, 0) == 0;
    forall j | 0 <= j < 16
      ensures o[j] == Carried(s)[j]
    {
    }
  }

  lemma CarriesFit(s: seq<int>, o: seq<int>, i: nat)
    requires Bounded(s, 0x4000_0000_0000_0000) && |o| == 16 && i < 16 && PartlyCarried(s, o, i)
    ensures o[i] == s[i] + CarryInto(s, i)
    ensures i < 15 ==> o[i + 1] == s[i + 1]
    ensures i == 15 ==> 0 <= o[0] < 65536
    ensures -0x1_0000_0000_0000 <= CarryInto(s, i) <= 0x1_0000_0000_0000
    ensures -0x1_0000_0000_0000 <= CarryInto(s, i + 1) <= 0x1_0000_0000_0000
    ensures CarryInto(s, i + 1) == (s[i] + CarryInto(s, i)) / 65536
  {
    CarryBound(s, i, 0x4000_0000_0000_0000);
    CarryBound(s, i + 1, 0x4000_0000_0000_0000);
  }

  lemma LowHalf(x: int64)
    ensures And(x, 0xffff) == x % 65536
  {
    Pow2Of16();
    AndLowBits(x, 16);
  }

  method ConditionalSwapInPlace(p: Fe, q: Fe, b: int64)
    requires p.Length == 16 && q.Length == 16 && p != q
    requires b == 0 || b == 1
    modifies p, q
    ensures p[..] == old(if b == 1 then q[..] else p[..])
    ensures q[..] == old(if b == 1 then p[..] else q[..])
  {
    var below: int64 := b - 1;
    var c: int64 := -1 - below;
    var i := 0;
    while i < 16
      invariant 0 <= i <= 16
      invariant forall j :: 0 <= j < i ==> p[j] == old(if b == 1 then q[j] else p[j])
      invariant forall j :: 0 <= j < i ==> q[j] == old(if b == 1 then p[j] else q[j])
      invariant forall j :: i <= j < 16 ==> p[j] == old(p[j]) && q[j] == old(q[j])
    {
      MaskedSwap(p[i], q[i], c);
      var t: int64 := And(c, Xor(p[i], q[i]));
      p[i] := Xor(p[i], t);
      q[i] := Xor(q[i], t);
      i := i + 1;
    }
  }

  /** The masked exclusive-or swap: with mask -1 the two words change places, with mask 0
      both stay. */
  lemma MaskedSwap(x: int64, y: int64, mask: int64)
    requires mask == 0 || mask == -1
    ensures var t := And(mask, Xor(x, y));
            && -0x8000_0000_0000_0000 <= t <= 0x7fff_ffff_ffff_ffff
            && Xor(x, t) == (if mask == 0 then x else y)
            && Xor(y, t) == (if mask == 0 then y else x)
  {
    Int64Range(x, y);
    XorWithZero(x);
    XorWithZero(y);
    XorCancels(x, y);
  }

  method Add(o: Fe, a: Fe, b: Fe)
    requires o.Length == 16 && Within(a, TIGHT) && Within(b, TIGHT)
    modifies o
    ensures Within(o, LOOSE) && Val(o) == old(Val(a) + Val(b))
  {
    var i := 0;
    ghost var x: seq<int>, y: seq<int> := a[..], b[..];
    while i < 16
      invariant 0 <= i <= 16
      invariant forall j :: 0 <= j < i ==> o[j] == x[j] + y[j]
      invariant forall j :: i <= j < 16 ==> a[j] == x[j] && b[j] == y[j]
    {
      o[i] := a[i] + b[i];
      i := i + 1;
    }
    ValueOfSums(o[..], x, y, 1);
  }

  method Subtract(o: Fe, a: Fe, b: Fe)
    requires o.Length == 16 && Within(a, TIGHT) && Within(b, TIGHT)
    modifies o
    ensures Within(o, LOOSE) && Val(o) == old(Val(a) - Val(b))
  {
    var i := 0;
    ghost var x: seq<int>, y: seq<int> := a[..], b[..];
    while i < 16
      invariant 0 <= i <= 16
      invariant forall j :: 0 <= j < i ==> o[j] == x[j] - y[j]
      invariant forall j :: i <= j < 16 ==> a[j] == x[j] && b[j] == y[j]
    {
      o[i] := a[i] - b[i];
      i := i + 1;
    }
    ValueOfSums(o[..], x, y, -1);
  }

  lemma {:induction false} ValueOfSums(z: seq<int>, x: seq<int>, y: seq<int>, m: int)
    requires |z| == |x| == |y|
    requires m == 1 || m == -1
    requires forall j :: 0 <= j < |z| ==> z[j] == x[j] + m * y[j]
    ensures Value(z) == Value(x) + m * Value(y)
  {
    if z != [] {
      ValueOfSums(z[1..], x[1..], y[1..], m);
    }
  }

  // ----- multiplication -----

  const SQUARE: int := 17199273316

  lemma ProductBound(x: int, y: int)
    requires -LOOSE <= x <= LOOSE && -LOOSE <= y <= LOOSE
    ensures -SQUARE <= x * y <= SQUARE
  {
    ScaleBound(x, y);
    ScaleBound(-x, y);
    assert (-x) * y == -(x * y);
  }

  lemma ScaleBound(x: int, y: int)
    requires -LOOSE <= x <= LOOSE && -LOOSE <= y <= LOOSE
    ensures x * y <= SQUARE
  {
    if y >= 0 {
      NonNegativeProduct(LOOSE - x, y);
    } else {
      NonNegativeProduct(LOOSE + x, -y);
    }
  }

  lemma NonNegativeProduct(x: int, y: int)
    requires x >= 0 && y >= 0
    ensures x * y >= 0
  {
  }

  /** One more product added to its column. */
  lemma AddProduct(t: seq<int>, t': seq<int>, a: seq<int>, b: seq<int>, i: nat, j: nat, p: int, r: int)
    requires i < |a| && j < |b| && i + j < |t|
    requires p == a[i] * b[j] && t' == t[i + j := t[i + j] + p]
    requires Value(t) == r + Weight(i) * a[i] * Value(b[..j])
    ensures Value(t') == r + Weight(i) * a[i] * Value(b[..j + 1])
  {
    hide Value, Weight;
    ValueIncrease(t, i + j, p);
    WeightAdd(i, j);
    ValueSnoc(b, j);
    RegroupProduct(Value(t), Value(t'), r, a[i], b[j], p,
      Weight(i), Weight(j), Weight(i + j), Value(b[..j]), Value(b[..j + 1]));
  }

  lemma RegroupProduct(t: int, t': int, r: int, x: int, y: int, p: int, u: int, w: int, uw: int, v: int, v': int)
    requires t == r + u * x * v && t' == t + p * uw
    requires p == x * y && uw == u * w && v' == v + w * y
    ensures t' == r + u * x * v'
  {
    FourFactors(x, y, u, w);
    DistributeOver(u * x, v, w * y);
  }

  lemma DistributeOver(a: int, b: int, c: int)
    ensures a * (b + c) == a * b + a * c
  {
  }

  lemma FourFactors(x: int, y: int, u: int, w: int)
    ensures (x * y) * (u * w) == u * x * (w * y)
  {
    Associate(u, x, w * y);
    Associate(x, w, y);
    Associate(x, y, w);
    Associate(u, x * y, w);
    Associate(x * y, u, w);
  }

  /** A finished row of products moves on to the next limb of a. */
  lemma FinishRow(a: seq<int>, b: seq<int>, i: nat)
    requires i < |a|
    ensures Value(a[..i]) * Value(b) + Weight(i) * a[i] * Value(b) == Value(a[..i + 1]) * Value(b)
  {
    ValueSnoc(a, i);
  }

  /** Columns 16 to 30 weigh 2^256 times columns 0 to 14: folding them in times 38 drops a
      multiple of 2p. */
  lemma FoldedValue(t: seq<int>, low: seq<int>)
    requires |t| == 31 && |low| == 16
    requires Value(low) == Value(t[..16]) + 38 * Value(t[16..])
    ensures Value(low) == Value(t) - 2 * P * Value(t[16..])
  {
    assert t == t[..16] + t[16..];
    ValueAppend(t[..16], t[16..]);
    Weight16();
    FoldCarry(Weight(16), Value(t[16..]));
  }

  lemma FoldColumn(low: seq<int>, low': seq<int>, high: seq<int>, i: nat, v: int)
    requires i < |low| && i < |high|
    requires low' == low[i := low[i] + 38 * high[i]]
    requires Value(low) == v + 38 * Value(high[..i])
    ensures Value(low') == v + 38 * Value(high[..i + 1])
  {
    ValueIncrease(low, i, 38 * high[i]);
    ValueSnoc(high, i);
    ScaleRegroup(high[i], Weight(i));
  }

  lemma ScaleRegroup(x: int, w: int)
    ensures 38 * x * w == 38 * (w * x)
  {
  }

  method Columns(a: Fe, b: Fe) returns (t: array<int64>)
    requires Within(a, LOOSE) && Within(b, LOOSE)
    ensures fresh(t) && t.Length == 31
    ensures Value(t[..]) == Val(a) * Val(b)
    ensures forall k :: 0 <= k < 31 ==> -16 * SQUARE <= t[k] <= 16 * SQUARE
  {
    t := new int64[31](_ => 0);
    ghost var x: seq<int>, y: seq<int> := a[..], b[..];
    ZeroValue(t[..]);
    var i := 0;
    while i < 16
      invariant 0 <= i <= 16
      invariant forall k :: 0 <= k < 31 ==> -i * SQUARE <= t[k] <= i * SQUARE
      invariant Value(t[..]) == Value(x[..i]) * Value(y)
    {
      var j := 0;
      while j < 16
        invariant 0 <= j <= 16
        invariant forall k :: 0 <= k < i + j ==> -(i + 1) * SQUARE <= t[k] <= (i + 1) * SQUARE
        invariant forall k :: i + j <= k < 31 ==> -i * SQUARE <= t[k] <= i * SQUARE
        invariant Value(t[..]) == Value(x[..i]) * Value(y) + Weight(i) * x[i] * Value(y[..j])
      {
        ghost var before: seq<int> := t[..];
        ProductBound(a[i], b[j]);
        var product: int64 := a[i] * b[j];
        t[i + j] := t[i + j] + product;
        assert t[..] == before[i + j := before[i + j] + x[i] * y[j]];
        AddProduct(before, t[..], x, y, i, j, product, Value(x[..i]) * Value(y));
        j := j + 1;
      }
      assert y[..16] == y;
      FinishRow(x, y, i);
      i := i + 1;
    }
    assert x[..16] == x;
  }

  lemma {:induction false} ZeroValue(s: seq<int>)
    requires forall k :: 0 <= k < |s| ==> s[k] == 0
    ensures Value(s) == 0
  {
    if s != [] {
      ZeroValue(s[1..]);
    }
  }

  /** The second loop of `multmod`. */
  method FoldColumns(t: array<int64>) returns (ghost high: int)
    requires t.Length == 31
    requires forall k :: 0 <= k < 31 ==> -16 * SQUARE <= t[k] <= 16 * SQUARE
    modifies t
    ensures forall k :: 0 <= k < 16 ==> -39 * 16 * SQUARE <= t[k] <= 39 * 16 * SQUARE
    ensures Value(t[..16]) == old(Value(t[..])) - 2 * P * high
  {
    ghost var columns: seq<int> := t[..];
    high := Value(columns[16..]);
    var i := 0;
    while i < 15
      invariant 0 <= i <= 15
      invariant forall k :: 0 <= k < i ==> -39 * 16 * SQUARE <= t[k] <= 39 * 16 * SQUARE
      invariant forall k :: i <= k < 31 ==> t[k] == columns[k]
      invariant Value(t[..16]) == Value(columns[..16]) + 38 * Value(columns[16..][..i])
    {
      ghost var before: seq<int> := t[..16];
      var scaled: int64 := 38 * t[i + 16];
      t[i] := t[i] + scaled;
      assert t[..16] == before[i := before[i] + 38 * columns[16..][i]];
      FoldColumn(before, t[..16], columns[16..], i, Value(columns[..16]));
      i := i + 1;
    }
    assert columns[16..][..15] == columns[16..];
    FoldedValue(columns, t[..16]);
  }

  method MultMod(o: Fe, a: Fe, b: Fe)
    requires o.Length == 16 && Within(a, LOOSE) && Within(b, LOOSE)
    modifies o
    ensures Reduced(o[..]) && Within(o, TIGHT)
    ensures Cong(Val(o), old(Val(a) * Val(b)))
  {
    ghost var product := Val(a) * Val(b);
    var t := Columns(a, b);
    assert Value(t[..]) == product;
    ghost var high := FoldColumns(t);
    ghost var folded: seq<int> := t[..16];
    assert Value(folded) == product - 2 * P * high;
    forall k | 0 <= k < 16 {
      o[k] := t[k];
    }
    assert o[..] == folded;
    TwoPasses(folded, product, high);
    Carry(o);
    Carry(o);
  }

  /** Two carry passes reduce the folded columns and keep their value mod p. */
  lemma TwoPasses(s: seq<int>, product: int, high: int)
    requires Bounded(s, 0x4000_0000_0000_0000)
    requires Value(s) == product - 2 * P * high
    ensures Bounded(Carried(s), 0x4000_0000_0000_0000)
    ensures Reduced(Carried(Carried(s)))
    ensures Cong(Value(Carried(Carried(s))), product)
  {
    var once := Carried(s);
    FirstPass(s);
    SecondPass(once);
    var c, d := CarryInto(s, |s|), CarryInto(once, |once|);
    assert Value(once) == Value(s) - 2 * P * c by {
      CarriedValue(s);
    }
    assert Value(Carried(once)) == Value(once) - 2 * P * d by {
      CarriedValue(once);
    }
    CongByMultiple(Value(Carried(once)), product, -2 * high - 2 * c - 2 * d);
  }
}
