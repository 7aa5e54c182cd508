/** Key pairs: what clamping does to a scalar, and the public key of a private one. */
module KeyPair {
  import opened Words
  import opened Limbs
  import opened Rfc7748
  import opened ByteStrings
  import opened Curve25519

  // ----- coordinates as bytes -----

  /** The bytes of a number that fits determine it. */
  lemma {:induction false} LittleEndianOfBytes(v: nat, n: nat)
    requires v < Pow2(8 * n)
    ensures LittleEndian(Bytes(v, n)) == v
  {
    if n > 0 {
      RoomBelow(v, 8 * n);
      LittleEndianOfBytes(v / 256, n - 1);
      hide Pow2;
      assert Bytes(v, n)[1..] == Bytes(v / 256, n - 1);
    }
  }

  lemma RoomBelow(v: nat, bits: nat)
    requires bits >= 8 && v < Pow2(bits)
    ensures v / 256 < Pow2(bits - 8)
  {
    Pow2Add(8, bits - 8);
    assert Pow2(8) == 256;
  }

  lemma {:induction false} TopByteOf(v: nat, n: nat)
    requires n > 0 && v < Pow2(8 * n - 1)
    ensures Bytes(v, n)[n - 1] < 128
  {
    if n == 1 {
      assert Pow2(7) == 128;
    } else {
      RoomBelow(v, 8 * n - 1);
      TopByteOf(v / 256, n - 1);
      hide Pow2;
    }
  }

  lemma PrimeFits()
    ensures P < Pow2(255) < Pow2(256)
  {
    Pow2Of16();
    Pow2Add(16, 16);
    Pow2Add(32, 32);
    Pow2Add(64, 64);
    Pow2Add(128, 127);
    Pow2Add(64, 63);
    Pow2Add(32, 31);
    Pow2Add(16, 15);
    assert Pow2(256) == 2 * Pow2(255);
  }

  /** Reading a written coordinate back gives its value modulo p. */
  lemma UnpackAfterPack(x: int)
    ensures DecodeUCoordinate(EncodeUCoordinate(x)) == Mod(x)
  {
    hide Pow2, And, LittleEndian;
    PrimeFits();
    var v, b := Mod(x), EncodeUCoordinate(x);
    LittleEndianOfBytes(v, 32);
    TopByteOf(v, 32);
    LowSeven(b[31]);
    assert b[31 := b[31]] == b;
  }

  // ----- clamping -----

  lemma OrStep(a: int, b: int)
    ensures Or(a, b) == 2 * Or(a / 2, b / 2) + if a % 2 == 1 || b % 2 == 1 then 1 else 0
  {
    assert (-1 - a) / 2 == -1 - a / 2 && (-1 - b) / 2 == -1 - b / 2;
    AndStep(-1 - a, -1 - b);
  }

  lemma AndStep(a: int, b: int)
    ensures And(a, b) == 2 * And(a / 2, b / 2) + if a % 2 == 1 && b % 2 == 1 then 1 else 0
  {
  }

  lemma OrOne(a: int)
    requires 0 <= a <= 1
    ensures Or(a, 1) == 1
  {
    assert And(-1, -2) == -2 && And(-2, -2) == -2;
  }

  /** Setting bit j of a number with no higher bits. */
  lemma {:induction false} SetBit(y: int, j: nat)
    requires 0 <= y < 2 * Pow2(j)
    ensures Or(y, Pow2(j)) == Pow2(j) + y % Pow2(j)
    decreases j
  {
    if j == 0 {
      OrOne(y);
    } else {
      hide Or;
      OrStep(y, Pow2(j));
      Pow2Half(j);
      SetBit(y / 2, j - 1);
      ModDouble(y, Pow2(j - 1));
    }
  }

  lemma SetBit6(x: uint8)
    ensures Or(And(x, 127), 64) == 64 + x % 64
  {
    hide Pow2, Or, And;
    PowerOfSix();
    LowSeven(x);
    SetBit(x % 128, 6);
    ModTwice(x);
  }

  lemma PowerOfSix()
    ensures Pow2(6) == 64
  {
  }

  lemma ModTwice(x: int)
    ensures (x % 128) % 64 == x % 64 && 0 <= x % 128 < 2 * 64
  {
    var q, r := x / 128, x % 128;
    assert x == 64 * (2 * q + r / 64) + r % 64;
    DivModUnique(x, 64, 2 * q + r / 64, r % 64);
  }

  lemma ClearThree(x: uint8)
    ensures And(x, 248) == x - x % 8
  {
    assert Pow2(8) == 256 && Pow2(3) == 8;
    hide Pow2, And;
    AndHighBits(x, 8, 3);
  }

  /** What clamping a scalar does to its bytes. */
  lemma ClampBytes(k: seq<uint8>)
    requires |k| == 32
    ensures Clamp(k) == k[0 := k[0] - k[0] % 8][31 := 64 + k[31] % 64]
  {
    hide And, Or;
    ClearThree(k[0]);
    SetBit6(k[31]);
  }

  lemma {:induction false} LittleEndianSnoc(b: seq<uint8>, last: uint8)
    ensures LittleEndian(b + [last]) == LittleEndian(b) + Pow2(8 * |b|) * last
    ensures LittleEndian(b) < Pow2(8 * |b|)
  {
    if b == [] {
      assert b + [last] == [last] && [last][1..] == [];
    } else {
      assert (b + [last])[1..] == b[1..] + [last];
      LittleEndianSnoc(b[1..], last);
      Pow2Add(8, 8 * |b| - 8);
      assert Pow2(8) == 256;
      hide Pow2, LittleEndian;
      Associate(256, Pow2(8 * |b| - 8), last);
    }
  }

  /** A clamped scalar is a multiple of eight from 2^254 up to 2^255. */
  lemma ClampedScalar(k: seq<uint8>)
    requires |k| == 32
    ensures var n := LittleEndian(Clamp(k)); n % 8 == 0 && Pow2(254) <= n < Pow2(255)
  {
    ClampBytes(k);
    LowBits(k[0], k[31]);
    hide Clamp, Pow2, LittleEndian;
    var z := Clamp(k);
    TopByteRange(z);
    FirstByte(z);
  }

  lemma LowBits(x: uint8, y: uint8)
    ensures (x - x % 8) % 8 == 0 && 64 <= 64 + y % 64 < 128 && (64 + y % 64) % 64 == y % 64
  {
  }

  lemma TopByteRange(z: seq<uint8>)
    requires |z| == 32 && 64 <= z[31] < 128
    ensures Pow2(254) <= LittleEndian(z) < Pow2(255)
  {
    assert Pow2(6) == 64 && Pow2(7) == 128;
    hide Pow2, LittleEndian;
    assert z == z[..31] + [z[31]];
    LittleEndianSnoc(z[..31], z[31]);
    Pow2Add(248, 6);
    Pow2Add(248, 7);
    TopRoom(Pow2(248), LittleEndian(z[..31]), z[31]);
  }

  lemma TopRoom(w: int, low: int, top: int)
    requires 0 <= low < w && 64 <= top < 128
    ensures w * 64 <= low + w * top < w * 128
  {
    assert w * 64 <= w * top;
    assert w * top <= w * 127;
  }

  lemma FirstByte(z: seq<uint8>)
    requires z != [] && z[0] % 8 == 0
    ensures LittleEndian(z) % 8 == 0
  {
    var rest := LittleEndian(z[1..]);
    hide LittleEndian;
    assert LittleEndian(z) == z[0] + 8 * (32 * rest);
  }

  /** A clamped scalar is not changed by clamping it again. */
  lemma ClampTwice(k: seq<uint8>)
    requires |k| == 32
    ensures Clamp(Clamp(k)) == Clamp(k)
  {
    hide Clamp;
    ClampBytes(k);
    ClampBytes(Clamp(k));
    LowBits(k[0], k[31]);
    assert Clamp(Clamp(k))[0] == Clamp(k)[0];
  }

  // ----- key pairs -----

  /** The u-coordinate 9 of the base point, section 4.1 of RFC 7748. */
  function BasePoint(): (b: seq<uint8>)
    ensures |b| == 32
  {
    [9] + Bytes(0, 31)
  }

  lemma BasePointIsNine()
    ensures DecodeUCoordinate(BasePoint()) == 9
  {
    assert BasePoint() == Bytes(9, 32) by {
      assert Bytes(9, 32)[1..] == Bytes(0, 31);
      assert Bytes(9, 32)[0] == 9;
    }
    PrimeFits();
    hide Bytes, And, Pow2;
    UnpackAfterPack(9);
  }

  method DerivePublicKey(publicKey: array<uint8>, privateKey: array<uint8>)
    requires publicKey.Length == privateKey.Length == 32
    modifies publicKey
    ensures publicKey[..] == X25519(old(privateKey[..]), BasePoint())
  {
    hide X25519, Bytes;
    var base := BasePoint();
    var basepoint := new uint8[32](i requires 0 <= i < 32 => base[i]);
    assert basepoint[..] == base;
    SharedSecret(publicKey, privateKey, basepoint);
  }

  /** Random bytes made into a private key: clamped, so that using the key does not change it further. */
  method GeneratePrivateKey(random: seq<uint8>) returns (privateKey: array<uint8>)
    requires |random| == 32
    ensures fresh(privateKey) && privateKey[..] == Clamp(random)
    ensures Clamp(privateKey[..]) == privateKey[..]
    ensures forall u :: |u| == 32 ==> X25519(privateKey[..], u) == X25519(random, u)
  {
    hide And, Or, LittleEndian, LadderResult, Ratio;
    privateKey := new uint8[32](i requires 0 <= i < 32 => random[i]);
    ByteRange(random[31], 127);
    ByteRange(And(random[31], 127), 64);
    ByteRange(random[0], 248);
    privateKey[31] := Or(And(privateKey[31], 127), 64);
    privateKey[0] := And(privateKey[0], 248);
    assert privateKey[..] == Clamp(random);
    ClampTwice(random);
  }
}
