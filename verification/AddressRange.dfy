/** Prefix masks of IPv4 and IPv6 ranges. */
module AddressRange {
  import opened Words

  datatype IPAddressRange = IPAddressRange(address: seq<uint8>, networkPrefixLength: uint8) {
    /** What parsing a range guarantees: a prefix no longer than the address. */
    predicate Valid() {
      (|address| == 4 || |address| == 16) && networkPrefixLength as int <= 8 * |address|
    }
  }

  // ----- what a mask is -----

  // how many of the first n bits fall into byte k
  function Kept(n: int, k: int): (r: nat)
    ensures r <= 8
  {
    if n <= 8 * k then 0 else if n >= 8 * k + 8 then 8 else n - 8 * k
  }

  function MaskByte(n: int, k: int): (m: uint8) {
    KeptByte(Kept(n, k));
    256 - Pow2(8 - Kept(n, k))
  }

  lemma KeptByte(r: nat)
    requires r <= 8
    ensures 0 <= 256 - Pow2(8 - r) < 256
  {
    assert Pow2(8) == 256;
    Pow2Monotone(8 - r, 8);
  }

  /** Bit i, counted from the most significant bit of the first byte. */
  predicate Bit(bytes: seq<uint8>, i: nat)
    requires i < 8 * |bytes|
  {
    (bytes[i / 8] as int / Pow2(7 - i % 8)) % 2 == 1
  }

  ghost predicate IsMask(bytes: seq<uint8>, n: nat) {
    forall k :: 0 <= k < |bytes| ==> bytes[k] == MaskByte(n, k)
  }

  // ----- a run of ones, shifted down -----

  lemma QuotientIs(x: int, m: int, q: int, r: int)
    requires m > 0 && x == m * q + r && 0 <= r < m
    ensures x / m == q
  {
    DivModUnique(x, m, q, r);
  }

  lemma OnesShifted(w: nat, j: nat, t: nat)
    requires j <= w && t <= w
    ensures (Pow2(w) - Pow2(j)) / Pow2(t) == Pow2(w - t) - (if j <= t then 1 else Pow2(j - t))
  {
    Pow2Add(t, w - t);
    if j <= t {
      Pow2Monotone(j, t);
      Distribute(Pow2(t), Pow2(w - t), 1);
      QuotientIs(Pow2(w) - Pow2(j), Pow2(t), Pow2(w - t) - 1, Pow2(t) - Pow2(j));
    } else {
      Pow2Add(t, j - t);
      Distribute(Pow2(t), Pow2(w - t), Pow2(j - t));
      QuotientIs(Pow2(w) - Pow2(j), Pow2(t), Pow2(w - t) - Pow2(j - t), 0);
    }
  }

  lemma Distribute(a: int, b: int, c: int)
    ensures a * (b - c) == a * b - a * c
  {
  }

  lemma Pow2Even(n: nat)
    requires n > 0
    ensures Pow2(n) % 2 == 0
  {
    EvenDouble(Pow2(n - 1));
  }

  lemma EvenDouble(x: int)
    ensures (2 * x) % 2 == 0
  {
  }

  lemma MultipleOf256(n: nat)
    requires n >= 8
    ensures Pow2(n) % 256 == 0 && Pow2(n) == 256 * Pow2(n - 8)
  {
    Pow2Add(8, n - 8);
    assert Pow2(8) == 256;
  }

  /** The bits of a mask byte: the kept ones come first. */
  lemma MaskByteBit(kept: nat, i: nat)
    requires kept <= 8 && i < 8
    ensures ((256 - Pow2(8 - kept)) / Pow2(7 - i)) % 2 == 1 <==> i < kept
  {
    EndsOfByte();
    hide Pow2;
    OnesShifted(8, 8 - kept, 7 - i);
    Pow2Even(i + 1);
    if i >= kept {
      Pow2Even(i + 1 - kept);
    }
  }

  lemma MaskBits(bytes: seq<uint8>, n: nat)
    requires IsMask(bytes, n)
    ensures forall i: nat :: i < 8 * |bytes| ==> (Bit(bytes, i) <==> i < n)
  {
    forall i: nat | i < 8 * |bytes|
      ensures Bit(bytes, i) <==> i < n
    {
      MaskByteBit(Kept(n, i / 8), i % 8);
    }
  }

  // ----- the mask -----

  // a 32-bit word of n ones and then zeros, as the shift of all ones to the left makes it
  function ShiftedOnes(n: nat): int
    requires n <= 32
  {
    Pow2(32) - Pow2(32 - n)
  }

  lemma OnesByte(v: int, n: nat, q: nat)
    requires 0 < n <= 32 && q < 4
    requires v == Pow2(8 + 8 * q) - (if n >= 8 + 8 * q then 1 else Pow2(8 + 8 * q - n))
    ensures v % 256 == MaskByte(n, q)
  {
    hide Pow2;
    MultipleOf256(8 + 8 * q);
    EndsOfByte();
    if n <= 8 * q {
      var d := 8 + 8 * q - n;
      MultipleOf256(d);
      Remainder(Pow2(8 * q) - Pow2(d - 8), 0);
    } else if n >= 8 * q + 8 {
      Remainder(Pow2(8 * q) - 1, 255);
    } else {
      var d := 8 + 8 * q - n;
      Pow2Monotone(d, 8);
      Remainder(Pow2(8 * q) - 1, 256 - Pow2(d));
    }
  }

  /** Byte q of that word is the mask byte. */
  lemma ShiftedByte(n: nat, q: nat)
    requires 0 < n <= 32 && q < 4
    ensures (ShiftedOnes(n) / Pow2(24 - 8 * q)) % 256 == MaskByte(n, q)
  {
    hide Pow2, MaskByte;
    var t := 24 - 8 * q;
    OnesShifted(32, 32 - n, t);
    assert 32 - t == 8 + 8 * q && (32 - n <= t <==> n >= 8 + 8 * q);
    OnesByte(ShiftedOnes(n) / Pow2(t), n, q);
  }

  lemma EndsOfByte()
    ensures Pow2(8) == 256 && Pow2(0) == 1
  {
  }

  lemma Remainder(a: int, r: int)
    requires 0 <= r < 256
    ensures (256 * a + r) % 256 == r
  {
  }

  lemma AllShifts()
    ensures Pow2(24) == 0x100_0000 && Pow2(16) == 0x1_0000 && Pow2(8) == 0x100 && Pow2(0) == 1
    ensures Pow2(32) == 0x1_0000_0000
  {
    Pow2Of16();
    Pow2Add(16, 8);
    Pow2Add(16, 16);
    assert Pow2(8) == 256;
  }

  /** Writes the four bytes of a word of n ones. */
  method PutWord(bytes: array<uint8>, at: nat, n: nat)
    requires at + 4 <= bytes.Length && 0 < n <= 32
    modifies bytes
    ensures forall q :: 0 <= q < 4 ==> bytes[at + q] == MaskByte(n, q)
    ensures forall k :: 0 <= k < bytes.Length && !(at <= k < at + 4) ==> bytes[k] == old(bytes[k])
  {
    hide MaskByte, Pow2;
    AllShifts();
    ShiftedByte(n, 0);
    ShiftedByte(n, 1);
    ShiftedByte(n, 2);
    ShiftedByte(n, 3);
    var mask := ShiftedOnes(n);
    bytes[at] := mask / 0x100_0000 % 256;
    bytes[at + 1] := mask / 0x1_0000 % 256;
    bytes[at + 2] := mask / 0x100 % 256;
    bytes[at + 3] := mask / 1 % 256;
  }

  /** Exactly the first bits of the mask are set, for every prefix length. */
  method SubnetMask(r: IPAddressRange) returns (bytes: array<uint8>)
    requires r.Valid()
    ensures fresh(bytes) && bytes.Length == |r.address| && IsMask(bytes[..], r.networkPrefixLength)
    ensures forall i: nat :: i < 8 * bytes.Length ==> (Bit(bytes[..], i) <==> i < r.networkPrefixLength)
  {
    var n: int := r.networkPrefixLength;
    ZeroBytes();
    if |r.address| == 4 {
      bytes := new uint8[4](_ => 0);
      if n > 0 {
        PutWord(bytes, 0, n);
      }
    } else {
      bytes := new uint8[16](_ => 0);
      hide MaskByte;
      var i := 0;
      while i < n / 8
        invariant i <= n / 8
        invariant forall k :: 0 <= k < i ==> bytes[k] == 0xff
        invariant forall k :: i <= k < 16 ==> bytes[k] == 0
      {
        bytes[i] := 0xff;
        i := i + 1;
      }
      var nibble := n % 32;
      if nibble != 0 {
        PutWord(bytes, n / 32 * 4, nibble);
      }
      MaskIsFilled(bytes[..], n);
    }
    MaskBits(bytes[..], n);
  }

  lemma ZeroBytes()
    ensures forall k :: k >= 0 ==> MaskByte(0, k) == 0
  {
    assert Pow2(8) == 256;
  }

  /** Whole bytes of ones, and the word with the end of the prefix written over them. */
  lemma MaskIsFilled(bytes: seq<uint8>, n: nat)
    requires |bytes| == 16 && n <= 128
    requires var word := n / 32 * 4;
             forall k :: 0 <= k < 16 ==>
               bytes[k] == if n % 32 != 0 && word <= k < word + 4 then MaskByte(n % 32, k - word)
                           else if k < n / 8 then 255 else 0
    ensures IsMask(bytes, n)
  {
    var word := n / 32 * 4;
    forall k | 0 <= k < 16
      ensures bytes[k] == MaskByte(n, k)
    {
      assert Pow2(8) == 256 && Pow2(0) == 1;
      if word <= k < word + 4 {
        assert n - 8 * k == n % 32 - 8 * (k - word);
        assert Kept(n, k) == Kept(n % 32, k - word);
      }
    }
  }

  // ----- masking an address -----

  /** The bytes as one big-endian number. */
  function BigEndian(bytes: seq<uint8>): nat {
    if bytes == [] then 0 else 256 * BigEndian(bytes[..|bytes| - 1]) + bytes[|bytes| - 1]
  }

  lemma AndMaskByte(x: uint8, n: int, k: int)
    ensures And(x, MaskByte(n, k)) == ByteCleared(x, n, k)
  {
    EndsOfByte();
    hide And, Pow2, Cleared, Kept;
    AndHighBits(x, 8, 8 - Kept(n, k));
  }

  function ByteCleared(x: uint8, n: int, k: int): (r: uint8) {
    ClearedByte(x, Pow2(8 - Kept(n, k)));
    Cleared(x, Pow2(8 - Kept(n, k)))
  }

  function MaskedBytes(address: seq<uint8>, n: nat): (r: seq<uint8>)
    ensures |r| == |address| && forall k :: 0 <= k < |r| ==> r[k] == ByteCleared(address[k], n, k)
  {
    seq(|address|, k requires 0 <= k < |address| => ByteCleared(address[k], n, k))
  }

  /** Clearing the host bits takes the remainder away, byte by byte or in one piece. */
  lemma {:induction false} MaskedValue(address: seq<uint8>, n: nat)
    requires n <= 8 * |address|
    ensures BigEndian(MaskedBytes(address, n)) == Cleared(BigEndian(address), Pow2(8 * |address| - n))
  {
    if address == [] {
      ClearedIs(0, Pow2(0), 0, 0);
    } else {
      var last := |address| - 1;
      var front, x := address[..last], address[last];
      var masked := MaskedBytes(address, n);
      var n' := if n <= 8 * last then n else 8 * last;
      MaskedValue(front, n');
      hide Cleared, Pow2;
      assert masked[..last] == MaskedBytes(front, n') by {
        assert forall k :: 0 <= k < last ==> Kept(n, k) == Kept(n', k);
      }
      ClearLastByte(BigEndian(front), x, last, n);
    }
  }

  /** One more byte: either all of it goes, or all the bytes before it stay. */
  lemma ClearLastByte(x: nat, b: uint8, last: nat, n: nat)
    requires n <= 8 * last + 8
    ensures var n' := if n <= 8 * last then n else 8 * last;
            Cleared(256 * x + b, Pow2(8 * last + 8 - n)) == 256 * Cleared(x, Pow2(8 * last - n')) + ByteCleared(b, n, last)
  {
    EndsOfByte();
    if n <= 8 * last {
      MultipleOf256(8 * last + 8 - n);
      hide Pow2;
      ClearedQuotient(b, 256);
      ClearedIs(b, 256, 0, b);
      ClearWhole(x, b, Pow2(8 * last - n));
    } else {
      var j := 8 * last + 8 - n;
      Pow2Add(j, 8 - j);
      hide Pow2;
      ClearedIs(x, 1, x, 0);
      ClearPart(x, b, Pow2(j), Pow2(8 - j));
    }
  }

  lemma ClearWhole(x: nat, b: uint8, m: nat)
    requires m > 0
    ensures Cleared(256 * x + b, 256 * m) == 256 * Cleared(x, m)
  {
    ClearedQuotient(x, m);
    var q, r := x / m, x - Cleared(x, m);
    hide Cleared;
    assert 256 * (m * q) == (256 * m) * q;
    ClearedIs(256 * x + b, 256 * m, q, 256 * r + b);
  }

  lemma ClearPart(x: nat, b: uint8, m: nat, c: nat)
    requires m > 0 && m * c == 256
    ensures Cleared(256 * x + b, m) == 256 * x + Cleared(b, m)
  {
    ClearedQuotient(b, m);
    var q, r := b as int / m, b - Cleared(b, m);
    hide Cleared;
    assert m * (c * x) == (m * c) * x;
    assert m * (c * x + q) == m * (c * x) + m * q;
    ClearedIs(256 * x + b, m, c * x + q, r);
  }

  method MaskedAddress(r: IPAddressRange) returns (masked: array<uint8>)
    requires r.Valid()
    ensures fresh(masked) && masked[..] == MaskedBytes(r.address, r.networkPrefixLength)
    ensures BigEndian(masked[..]) ==
            Cleared(BigEndian(r.address), Pow2(8 * |r.address| - r.networkPrefixLength))
  {
    hide Bit, MaskByte, ByteCleared, And, Pow2, Cleared, BigEndian, Kept;
    var subnet := SubnetMask(r);
    var n: int := r.networkPrefixLength;
    assert forall k :: 0 <= k < subnet.Length ==> subnet[k] == subnet[..][k] == MaskByte(n, k);
    masked := new uint8[|r.address|](i requires 0 <= i < |r.address| => r.address[i]);
    var i := 0;
    while i < subnet.Length
      invariant i <= subnet.Length == masked.Length == |r.address|
      invariant forall k :: 0 <= k < subnet.Length ==> subnet[k] == MaskByte(n, k)
      invariant forall k :: 0 <= k < i ==> masked[k] == ByteCleared(r.address[k], n, k)
      invariant forall k :: i <= k < masked.Length ==> masked[k] == r.address[k]
    {
      AndMaskByte(masked[i], n, i);
      ByteRange(masked[i], subnet[i]);
      masked[i] := And(masked[i], subnet[i]);
      i := i + 1;
    }
    MaskedValue(r.address, n);
  }

  /** Masking once is enough, and gives an address whose host bits are all clear. */
  lemma MaskedTwice(address: seq<uint8>, n: nat)
    requires n <= 8 * |address|
    ensures MaskedBytes(MaskedBytes(address, n), n) == MaskedBytes(address, n)
    ensures BigEndian(MaskedBytes(address, n)) % Pow2(8 * |address| - n) == 0
  {
    var once := MaskedBytes(address, n);
    hide Cleared, Pow2;
    forall k | 0 <= k < |address|
      ensures MaskedBytes(once, n)[k] == once[k]
    {
      ClearTwice(address[k], Pow2(8 - Kept(n, k)));
    }
    MaskedValue(address, n);
    ClearTwice(BigEndian(address), Pow2(8 * |address| - n));
  }

  lemma ClearTwice(x: int, m: int)
    requires m > 0
    ensures Cleared(Cleared(x, m), m) == Cleared(x, m) && Cleared(x, m) % m == 0
  {
    ClearedQuotient(x, m);
    DivModUnique(Cleared(x, m), m, x / m, 0);
  }
}
