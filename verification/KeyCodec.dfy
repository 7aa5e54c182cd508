/** The constant-time base64 and hex codecs of key.c, on bit-vectors of the C widths: `int`
    and `unsigned int` have 32 bits, `char` is signed. Text is a byte sequence without its
    terminating zero. */
module KeyCodec {

  type byte = bv8
  type word = bv32

  // ----- base64 as section 4 of RFC 4648 defines it -----

  /** Table 1: A-Z, a-z, 0-9, + and /. */
  function Letter(v: byte): byte
    requires v < 64
  {
    if v < 26 then v + 65
    else if v < 52 then v - 26 + 97
    else if v < 62 then v - 52 + 48
    else if v == 62 then 43
    else 47
  }

  const PAD: byte := 61

  // 24 bits as four 6-bit groups
  function Group(a: byte, b: byte, c: byte): (r: seq<byte>)
    ensures |r| == 4
  {
    [Letter(a >> 2), Letter(((a & 3) << 4) | (b >> 4)), Letter(((b & 15) << 2) | (c >> 6)), Letter(c & 63)]
  }

  function Base64(k: seq<byte>): seq<byte> {
    if |k| == 0 then []
    else if |k| == 1 then Group(k[0], 0, 0)[..2] + [PAD, PAD]
    else if |k| == 2 then Group(k[0], k[1], 0)[..3] + [PAD]
    else Group(k[0], k[1], k[2]) + Base64(k[3..])
  }

  // ----- C arithmetic -----

  // `>> 8` on an int
  function Shift8(x: word): word {
    if x >= 0x8000_0000 then (x >> 8) | 0xff00_0000 else x >> 8
  }

  // a signed char as an int
  function Promote(c: byte): word {
    if c >= 128 then 0xffff_ff00 | (c as word) else c as word
  }

  function LowByte(x: word): byte {
    (x & 0xff) as byte
  }

  // ----- encoding -----

  function EncodeLetter(x: word): byte {
    LowByte(x + 65 + (Shift8(25 - x) & 6) - (Shift8(51 - x) & 75) - (Shift8(61 - x) & 15) + (Shift8(62 - x) & 3))
  }

  // the sign of limit - x, spread over the low bits of the mask
  lemma BeyondMask(limit: byte, x: byte)
    requires limit < 64 && x < 64
    ensures Shift8(limit as word - x as word) == if x > limit then 0xffff_ffff else 0
  {
  }

  lemma EncodeLetterIsTable(x: byte)
    requires x < 64
    ensures EncodeLetter(x as word) == Letter(x)
  {
    BeyondMask(25, x);
    BeyondMask(51, x);
    BeyondMask(61, x);
    BeyondMask(62, x);
  }

  // the array `input` of encode_base64
  function Input(a: byte, b: byte, c: byte): (r: seq<byte>)
    ensures |r| == 4
  {
    [(a >> 2) & 63, ((a << 4) | (b >> 4)) & 63, ((b << 2) | (c >> 6)) & 63, c & 63]
  }

  lemma InputIsGroup(a: byte, b: byte, c: byte)
    ensures forall i :: 0 <= i < 4 ==> Input(a, b, c)[i] < 64 && Group(a, b, c)[i] == Letter(Input(a, b, c)[i])
  {
    SixBits(a, b, c);
  }

  method EncodeGroup(dest: array<byte>, at: nat, a: byte, b: byte, c: byte)
    requires at + 4 <= dest.Length
    modifies dest
    ensures forall j :: 0 <= j < 4 ==> dest[at + j] == Group(a, b, c)[j]
    ensures forall j :: 0 <= j < dest.Length && !(at <= j < at + 4) ==> dest[j] == old(dest[j])
  {
    hide Input, Group, Letter, EncodeLetter;
    var input := Input(a, b, c);
    InputIsGroup(a, b, c);
    for i := 0 to 4
      invariant forall j :: 0 <= j < i ==> dest[at + j] == Group(a, b, c)[j]
      invariant forall j :: 0 <= j < dest.Length && !(at <= j < at + i) ==> dest[j] == old(dest[j])
    {
      EncodeLetterIsTable(input[i]);
      dest[at + i] := EncodeLetter(input[i] as word);
    }
  }

  lemma SixBits(a: byte, b: byte, c: byte)
    ensures (a >> 2) & 63 == a >> 2 && c & 63 < 64 && a >> 2 < 64
    ensures ((a << 4) | (b >> 4)) & 63 == ((a & 3) << 4) | (b >> 4) && ((a & 3) << 4) | (b >> 4) < 64
    ensures ((b << 2) | (c >> 6)) & 63 == ((b & 15) << 2) | (c >> 6) && ((b & 15) << 2) | (c >> 6) < 64
  {
  }

  // ----- decoding -----

  function Between(c: word, low: word, high: word): word {
    Shift8((low - 1 - c) & (c - (high + 1)))
  }

  function DecodeLetter(c: word): word {
    0xffff_ffff
    + (Between(c, 65, 90) & (c - 64))
    + (Between(c, 97, 122) & (c - 70))
    + (Between(c, 48, 57) & (c + 5))
    + (Between(c, 43, 43) & 63)
    + (Between(c, 47, 47) & 64)
  }

  predicate IsLetter(c: byte) {
    65 <= c <= 90 || 97 <= c <= 122 || 48 <= c <= 57 || c == 43 || c == 47
  }

  // the inverse of the table
  function LetterValue(c: byte): (v: byte)
    requires IsLetter(c)
    ensures v < 64
  {
    if c >= 97 then c - 97 + 26
    else if c >= 65 then c - 65
    else if c >= 48 then c - 48 + 52
    else if c == 43 then 62
    else 63
  }

  lemma LetterInverse(v: byte)
    requires v < 64
    ensures IsLetter(Letter(v)) && LetterValue(Letter(v)) == v
  {
  }

  lemma ValueInverse(c: byte)
    requires IsLetter(c)
    ensures Letter(LetterValue(c)) == c
  {
  }

  function Mask(inside: bool): word {
    if inside then 0xffff_ffff else 0
  }

  lemma UpperMask(c: byte)
    ensures Between(Promote(c), 65, 90) == Mask(65 <= c <= 90)
  {
  }

  lemma LowerMask(c: byte)
    ensures Between(Promote(c), 97, 122) == Mask(97 <= c <= 122)
  {
  }

  lemma DigitMask(c: byte)
    ensures Between(Promote(c), 48, 57) == Mask(48 <= c <= 57)
  {
  }

  lemma PlusMask(c: byte)
    ensures Between(Promote(c), 43, 43) == Mask(c == 43)
  {
  }

  lemma SlashMask(c: byte)
    ensures Between(Promote(c), 47, 47) == Mask(c == 47)
  {
  }

  lemma DecodeLetterIsInverse(c: byte)
    ensures IsLetter(c) ==> DecodeLetter(Promote(c)) == LetterValue(c) as word
    ensures !IsLetter(c) ==> DecodeLetter(Promote(c)) == 0xffff_ffff
  {
    hide Between;
    UpperMask(c);
    LowerMask(c);
    DigitMask(c);
    PlusMask(c);
    SlashMask(c);
  }

  function DecodeGroup(a: byte, b: byte, c: byte, d: byte): word {
    (DecodeLetter(Promote(a)) << 18) | (DecodeLetter(Promote(b)) << 12)
    | (DecodeLetter(Promote(c)) << 6) | DecodeLetter(Promote(d))
  }

  function Packed(a: byte, b: byte, c: byte, d: byte): word {
    (a as word << 18) | (b as word << 12) | (c as word << 6) | d as word
  }

  function High(w: word): byte {
    LowByte(w >> 16)
  }

  function Middle(w: word): byte {
    LowByte(w >> 8)
  }

  /** Four 6-bit values and the three bytes of their 24 bits determine each other. */
  lemma PackedBytes(a: byte, b: byte, c: byte, d: byte)
    requires a < 64 && b < 64 && c < 64 && d < 64
    ensures var w := Packed(a, b, c, d);
            && w < 0x100_0000
            && High(w) >> 2 == a
            && ((High(w) & 3) << 4) | (Middle(w) >> 4) == b
            && ((Middle(w) & 15) << 2) | (LowByte(w) >> 6) == c
            && LowByte(w) & 63 == d
  {
  }

  lemma PackedGroup(x: byte, y: byte, z: byte)
    ensures var w := Packed(x >> 2, ((x & 3) << 4) | (y >> 4), ((y & 15) << 2) | (z >> 6), z & 63);
            High(w) == x && Middle(w) == y && LowByte(w) == z
  {
  }

  /** A negative result is the mark of a character outside the alphabet. */
  lemma DecodeGroupMeaning(a: byte, b: byte, c: byte, d: byte)
    ensures var w := DecodeGroup(a, b, c, d);
            && (w >> 31 == 0 <==> IsLetter(a) && IsLetter(b) && IsLetter(c) && IsLetter(d))
            && (w >> 31 == 0 || w >> 31 == 1)
            && (w >> 31 == 0 ==> Group(High(w), Middle(w), LowByte(w)) == [a, b, c, d])
  {
    hide Promote, DecodeLetter, Letter, High, Middle, LowByte;
    DecodeLetterIsInverse(a);
    DecodeLetterIsInverse(b);
    DecodeLetterIsInverse(c);
    DecodeLetterIsInverse(d);
    SignOfOr(DecodeLetter(Promote(a)), DecodeLetter(Promote(b)), DecodeLetter(Promote(c)), DecodeLetter(Promote(d)));
    if IsLetter(a) && IsLetter(b) && IsLetter(c) && IsLetter(d) {
      PackedIsGroup(a, b, c, d);
    }
  }

  lemma PackedIsGroup(a: byte, b: byte, c: byte, d: byte)
    requires IsLetter(a) && IsLetter(b) && IsLetter(c) && IsLetter(d)
    ensures var w := Packed(LetterValue(a), LetterValue(b), LetterValue(c), LetterValue(d));
            Group(High(w), Middle(w), LowByte(w)) == [a, b, c, d]
  {
    hide High, Middle, LowByte, Packed, LetterValue, Letter;
    PackedBytes(LetterValue(a), LetterValue(b), LetterValue(c), LetterValue(d));
    ValueInverse(a);
    ValueInverse(b);
    ValueInverse(c);
    ValueInverse(d);
  }

  lemma SignOfOr(a: word, b: word, c: word, d: word)
    requires a < 64 || a == 0xffff_ffff
    requires b < 64 || b == 0xffff_ffff
    requires c < 64 || c == 0xffff_ffff
    requires d < 64 || d == 0xffff_ffff
    ensures var w := (a << 18) | (b << 12) | (c << 6) | d;
            && (w >> 31 == 0 <==> a < 64 && b < 64 && c < 64 && d < 64)
            && (w >> 31 == 0 || w >> 31 == 1)
  {
  }

  /** Different triples of bytes have different groups. */
  lemma GroupInjective(x: byte, y: byte, z: byte, x': byte, y': byte, z': byte)
    requires Group(x, y, z) == Group(x', y', z')
    ensures x == x' && y == y' && z == z'
  {
    SixBits(x, y, z);
    SixBits(x', y', z');
    LetterInverse(x >> 2);
    LetterInverse(x' >> 2);
    LetterInverse(((x & 3) << 4) | (y >> 4));
    LetterInverse(((x' & 3) << 4) | (y' >> 4));
    LetterInverse(((y & 15) << 2) | (z >> 6));
    LetterInverse(((y' & 15) << 2) | (z' >> 6));
    LetterInverse(z & 63);
    LetterInverse(z' & 63);
    PackedGroup(x, y, z);
    PackedGroup(x', y', z');
  }

  lemma GroupIsLetters(x: byte, y: byte, z: byte)
    ensures forall c :: c in Group(x, y, z) ==> IsLetter(c)
  {
    SixBits(x, y, z);
    LetterInverse(x >> 2);
    LetterInverse(((x & 3) << 4) | (y >> 4));
    LetterInverse(((y & 15) << 2) | (z >> 6));
    LetterInverse(z & 63);
  }

  // ----- whole keys -----

  lemma Base64First(k: seq<byte>)
    requires |k| >= 3
    ensures Base64(k) == Group(k[0], k[1], k[2]) + Base64(k[3..])
  {
    hide Group;
  }

  // cutting off a first group and cutting at n
  lemma Slices(k: seq<byte>, n: nat) returns (rest: seq<byte>, front: seq<byte>, back: seq<byte>)
    requires 3 <= n <= |k|
    ensures rest == k[3..] && front == rest[..n - 3] == k[..n][3..] && back == rest[n - 3..] == k[n..]
    ensures k[..n][0] == k[0] && k[..n][1] == k[1] && k[..n][2] == k[2]
  {
    rest, front, back := k[3..], k[3..n], k[n..];
  }

  lemma Regrouped(g: seq<byte>, x: seq<byte>, y: seq<byte>)
    ensures g + (x + y) == (g + x) + y
  {
  }

  lemma {:induction false} Base64Split(k: seq<byte>, i: nat)
    requires 3 * i <= |k|
    ensures Base64(k) == Base64(k[..3 * i]) + Base64(k[3 * i..])
    ensures |Base64(k[..3 * i])| == 4 * i
    decreases i
  {
    hide Group;
    if i == 0 {
      assert k[0..] == k && k[..0] == [];
    } else {
      hide Base64;
      var rest, front, back := Slices(k, 3 * i);
      Base64First(k);
      Base64First(k[..3 * i]);
      Base64Split(rest, i - 1);
      Regrouped(Group(k[0], k[1], k[2]), Base64(front), Base64(back));
    }
  }

  // one more whole group
  lemma Base64Next(k: seq<byte>, i: nat)
    requires 3 * i + 3 <= |k|
    ensures Base64(k[..3 * (i + 1)]) == Base64(k[..3 * i]) + Group(k[3 * i], k[3 * i + 1], k[3 * i + 2])
    ensures |Base64(k[..3 * i])| == 4 * i
  {
    var front := k[..3 * (i + 1)];
    Base64Split(front, i);
    assert front[..3 * i] == k[..3 * i];
    assert front[3 * i..] == [k[3 * i], k[3 * i + 1], k[3 * i + 2]];
    assert front[3 * i..][3..] == [];
  }

  // the last group of a 32-byte key
  lemma Base64Last(k: seq<byte>)
    requires |k| == 32
    ensures Base64(k) == Base64(k[..30]) + Group(k[30], k[31], 0)[..3] + [PAD]
    ensures |Base64(k[..30])| == 40 && |Base64(k)| == 44
  {
    Base64Split(k, 10);
    assert k[30..] == [k[30], k[31]];
  }

  lemma {:induction false} Base64Letters(k: seq<byte>)
    requires |k| % 3 == 0
    ensures forall c :: c in Base64(k) ==> IsLetter(c)
  {
    if k != [] {
      GroupIsLetters(k[0], k[1], k[2]);
      Base64Letters(k[3..]);
    }
  }

  lemma {:induction false} Base64GroupsInjective(k: seq<byte>, k': seq<byte>)
    requires |k| == |k'| && |k| % 3 == 0
    requires Base64(k) == Base64(k')
    ensures k == k'
  {
    if k != [] {
      var b, b' := Base64(k), Base64(k');
      assert b[..4] == Group(k[0], k[1], k[2]) && b'[..4] == Group(k'[0], k'[1], k'[2]);
      assert b[4..] == Base64(k[3..]) && b'[4..] == Base64(k'[3..]);
      GroupInjective(k[0], k[1], k[2], k'[0], k'[1], k'[2]);
      Base64GroupsInjective(k[3..], k'[3..]);
      assert k == k[..3] + k[3..] && k' == k'[..3] + k'[3..];
    }
  }

  /** The text of a key has 44 characters, all from the alphabet or the padding at the end. */
  lemma Base64Alphabet(k: seq<byte>)
    requires |k| == 32
    ensures |Base64(k)| == 44 && Base64(k)[43] == PAD
    ensures forall i :: 0 <= i < 43 ==> IsLetter(Base64(k)[i])
  {
    hide Base64, Group, IsLetter;
    Base64Last(k);
    Base64Letters(k[..30]);
    GroupIsLetters(k[30], k[31], 0);
    var text, last := Base64(k), Group(k[30], k[31], 0);
    forall i | 0 <= i < 43
      ensures IsLetter(text[i])
    {
      if i < 40 {
        assert text[i] in Base64(k[..30]);
      } else {
        assert text[i] == last[i - 40] && last[i - 40] in last;
      }
    }
  }

  // the fourth character of a group without a third byte
  lemma LastByteOfGroup(x: byte, y: byte, x': byte, y': byte)
    ensures Group(x, y, 0)[3] == Group(x', y', 0)[3]
    ensures Group(x, y, 0)[..3] == Group(x', y', 0)[..3] ==> Group(x, y, 0) == Group(x', y', 0)
  {
    hide Letter;
    var a, b := Group(x, y, 0), Group(x', y', 0);
    assert a == a[..3] + [a[3]] && b == b[..3] + [b[3]];
  }

  /** A text encodes at most one key. */
  lemma Base64Injective(k: seq<byte>, k': seq<byte>)
    requires |k| == |k'| == 32 && Base64(k) == Base64(k')
    ensures k == k'
  {
    hide Group, Base64;
    Base64Last(k);
    Base64Last(k');
    var b := Base64(k);
    LastByteOfGroup(k[30], k[31], k'[30], k'[31]);
    assert b[..40] == Base64(k[..30]) == Base64(k'[..30]);
    Base64GroupsInjective(k[..30], k'[..30]);
    assert b[40..43] == Group(k[30], k[31], 0)[..3] == Group(k'[30], k'[31], 0)[..3];
    GroupInjective(k[30], k[31], 0, k'[30], k'[31], 0);
    assert k == k[..30] + [k[30], k[31]] && k' == k'[..30] + [k'[30], k'[31]];
  }

  /** `key_to_base64`. */
  method KeyToBase64(base64: array<byte>, key: array<byte>)
    requires base64.Length == 45 && key.Length == 32 && base64 != key
    modifies base64
    ensures base64[..44] == Base64(key[..]) && base64[44] == 0
  {
    assert Base64([]) == [];
    hide Group, Base64;
    assert key[..][..0] == [] && base64[..0] == [];
    var i := 0;
    while i < 10
      invariant 0 <= i <= 10
      invariant base64[..4 * i] == Base64(key[..][..3 * i])
    {
      ghost var before := base64[..4 * i];
      Base64Next(key[..], i);
      EncodeGroup(base64, 4 * i, key[3 * i], key[3 * i + 1], key[3 * i + 2]);
      assert base64[..4 * (i + 1)] == before + Group(key[3 * i], key[3 * i + 1], key[3 * i + 2]);
      i := i + 1;
    }
    ghost var before := base64[..40];
    EncodeGroup(base64, 40, key[30], key[31], 0);
    base64[43] := PAD;
    base64[44] := 0;
    assert base64[..44] == before + Group(key[30], key[31], 0)[..3] + [PAD];
    Base64Last(key[..]);
  }

  /** The characters so far, as key bytes or as a mark that one is not a letter. */
  ghost predicate Decoded(ret: byte, key: seq<byte>, text: seq<byte>) {
    && (ret == 0 ==> Base64(key) == text)
    && (ret != 0 ==> exists c :: c in text && !IsLetter(c))
  }

  lemma DecodedNext(ret: byte, ret': byte, key: seq<byte>, text: seq<byte>, i: nat, w: word)
    requires |key| >= 3 * i + 3 && |text| >= 4 * i + 4
    requires Decoded(ret, key[..3 * i], text[..4 * i])
    requires w == DecodeGroup(text[4 * i], text[4 * i + 1], text[4 * i + 2], text[4 * i + 3])
    requires key[3 * i] == High(w) && key[3 * i + 1] == Middle(w) && key[3 * i + 2] == LowByte(w)
    requires ret' == 0 <==> ret == 0 && w >> 31 == 0
    ensures Decoded(ret', key[..3 * (i + 1)], text[..4 * (i + 1)])
  {
    var a, b, c, d := text[4 * i], text[4 * i + 1], text[4 * i + 2], text[4 * i + 3];
    DecodeGroupMeaning(a, b, c, d);
    assert text[..4 * (i + 1)] == text[..4 * i] + [a, b, c, d];
    if ret' == 0 {
      Base64Next(key, i);
    } else if ret != 0 {
      var x :| x in text[..4 * i] && !IsLetter(x);
      assert x in text[..4 * (i + 1)];
    }
  }

  function TopBit(w: word): byte {
    LowByte(w >> 31)
  }

  /** The last group, of three characters: the two bits that no byte uses must be clear. */
  lemma LastGroup(key: seq<byte>, text: seq<byte>, ret: byte, w: word)
    requires |key| == 32 && |text| == 44 && text[43] == PAD
    requires Decoded(ret, key[..30], text[..40])
    requires w == DecodeGroup(text[40], text[41], text[42], 65)
    requires key[30] == High(w) && key[31] == Middle(w)
    ensures ret == 0 && w >> 31 == 0 && LowByte(w) == 0 ==> Base64(key) == text
    ensures !(ret == 0 && w >> 31 == 0 && LowByte(w) == 0) ==> forall k :: |k| == 32 ==> Base64(k) != text
  {
    hide Base64, Group, DecodeGroup, High, Middle, LowByte, IsLetter;
    var a, b, c := text[40], text[41], text[42];
    DecodeGroupMeaning(a, b, c, 65);
    assert text == text[..40] + [a, b, c] + [PAD];
    forall k: seq<byte> | |k| == 32 && Base64(k) == text
      ensures ret == 0 && w >> 31 == 0 && LowByte(w) == 0
    {
      CanonicalText(k, text);
      if w >> 31 == 0 {
        GroupInjective(k[30], k[31], 0, High(w), Middle(w), LowByte(w));
      }
    }
    if ret == 0 && w >> 31 == 0 && LowByte(w) == 0 {
      Base64Last(key);
    }
  }

  lemma CanonicalText(k: seq<byte>, text: seq<byte>)
    requires |k| == 32 && Base64(k) == text && |text| == 44
    ensures forall c :: c in text[..40] ==> IsLetter(c)
    ensures IsLetter(text[40]) && IsLetter(text[41]) && IsLetter(text[42]) && IsLetter(65)
    ensures [text[40], text[41], text[42], 65] == Group(k[30], k[31], 0)
  {
    Base64Last(k);
    Base64Letters(k[..30]);
    assert text[..40] == Base64(k[..30]);
    GroupIsLetters(k[30], k[31], 0);
    assert text[40..43] == Group(k[30], k[31], 0)[..3];
    assert text[40] == text[40..43][0] && text[41] == text[40..43][1] && text[42] == text[40..43][2];
  }

  lemma RetIsZero(ret: byte)
    ensures 1 & Shift8(ret as word - 1) == if ret == 0 then 1 else 0
  {
  }

  lemma OrIsZero(x: byte, y: byte)
    ensures x | y == 0 <==> x == 0 && y == 0
  {
  }

  lemma TopBitIsZero(w: word)
    ensures TopBit(w) == 0 <==> w >> 31 == 0
  {
  }

  method StoreBytes(key: array<byte>, at: nat, w: word)
    requires at + 3 <= key.Length
    modifies key
    ensures key[..][..at] == old(key[..][..at])
    ensures key[..][at] == High(w) && key[..][at + 1] == Middle(w) && key[..][at + 2] == LowByte(w)
  {
    key[at] := High(w);
    key[at + 1] := Middle(w);
    key[at + 2] := LowByte(w);
  }

  /** `key_from_base64` accepts exactly the canonical encodings of 32-byte keys and gives
      the key that each encodes. */
  method KeyFromBase64(key: array<byte>, base64: seq<byte>) returns (ok: bool)
    requires key.Length == 32
    modifies key
    ensures ok <==> exists k :: |k| == 32 && Base64(k) == base64
    ensures ok ==> Base64(key[..]) == base64
  {
    if |base64| != 44 || base64[43] != PAD {
      forall k: seq<byte> | |k| == 32
        ensures Base64(k) != base64
      {
        Base64Last(k);
      }
      return false;
    }
    var ret := DecodeGroups(key, base64);
    ok := DecodeLast(key, base64, ret);
  }

  // a set top bit joins the errors so far
  function WithError(ret: byte, w: word): byte {
    ret | TopBit(w)
  }

  lemma ErrorIsKept(ret: byte, w: word)
    ensures WithError(ret, w) == 0 <==> ret == 0 && w >> 31 == 0
  {
    hide TopBit;
    OrIsZero(ret, TopBit(w));
    TopBitIsZero(w);
  }

  /** The loop over the ten whole groups. */
  method DecodeGroups(key: array<byte>, base64: seq<byte>) returns (ret: byte)
    requires key.Length == 32 && |base64| == 44
    modifies key
    ensures Decoded(ret, key[..][..30], base64[..40])
  {
    assert Decoded(0, key[..][..0], base64[..0]);
    hide DecodeGroup, High, Middle, LowByte, WithError, Base64, Decoded;
    ret := 0;
    var i := 0;
    while i < 10
      invariant 0 <= i <= 10
      invariant Decoded(ret, key[..][..3 * i], base64[..4 * i])
    {
      ghost var before, prefix := ret, key[..][..3 * i];
      var w := DecodeGroup(base64[4 * i], base64[4 * i + 1], base64[4 * i + 2], base64[4 * i + 3]);
      ret := WithError(ret, w);
      ErrorIsKept(before, w);
      StoreBytes(key, 3 * i, w);
      assert key[..][..3 * i] == prefix;
      DecodedNext(before, ret, key[..], base64, i, w);
      i := i + 1;
    }
  }

  /** The group of three characters, and the verdict. */
  method DecodeLast(key: array<byte>, base64: seq<byte>, errors: byte) returns (ok: bool)
    requires key.Length == 32 && |base64| == 44 && base64[43] == PAD
    requires Decoded(errors, key[..][..30], base64[..40])
    modifies key
    ensures ok ==> Base64(key[..]) == base64
    ensures !ok ==> forall k :: |k| == 32 ==> Base64(k) != base64
  {
    hide DecodeGroup, High, Middle, LowByte, TopBit, Base64, Decoded, Shift8;
    var w := DecodeGroup(base64[40], base64[41], base64[42], 65);
    OrIsZero(errors, TopBit(w) | LowByte(w));
    OrIsZero(TopBit(w), LowByte(w));
    TopBitIsZero(w);
    var ret: byte := errors | (TopBit(w) | LowByte(w));
    ghost var prefix := key[..][..30];
    key[30] := High(w);
    key[31] := Middle(w);
    assert key[..][..30] == prefix;
    LastGroup(key[..], base64, errors, w);
    RetIsZero(ret);
    return 1 & Shift8(ret as word - 1) == 1;
  }

  // ----- hexadecimal -----

  /** The lower-case digits of section 8 of RFC 4648. */
  function HexDigit(v: byte): byte
    requires v < 16
  {
    if v < 10 then v + 48 else v - 10 + 97
  }

  function Hex(k: seq<byte>): (h: seq<byte>)
    ensures |h| == 2 * |k|
  {
    if k == [] then [] else [HexDigit(k[0] >> 4), HexDigit(k[0] & 15)] + Hex(k[1..])
  }

  predicate IsHex(c: byte) {
    48 <= c <= 57 || 65 <= c <= 70 || 97 <= c <= 102
  }

  function Lower(c: byte): byte {
    if 65 <= c <= 90 then c + 32 else c
  }

  function Lowered(s: seq<byte>): (r: seq<byte>)
    ensures |r| == |s|
  {
    seq(|s|, i requires 0 <= i < |s| => Lower(s[i]))
  }

  function EncodeDigit(v: word): byte {
    LowByte(87 + v + (((v - 10) >> 8) & 0xffff_ffd9))
  }

  lemma EncodeDigitIsTable(v: byte)
    requires v < 16
    ensures EncodeDigit(v as word) == HexDigit(v)
  {
  }

  lemma {:induction false} HexAt(k: seq<byte>, i: nat)
    requires i < |k|
    ensures Hex(k)[2 * i] == HexDigit(k[i] >> 4) && Hex(k)[2 * i + 1] == HexDigit(k[i] & 15)
    decreases i
  {
    if i > 0 {
      HexAt(k[1..], i - 1);
    }
  }

  /** `key_to_hex`. */
  method KeyToHex(hex: array<byte>, key: array<byte>)
    requires hex.Length == 65 && key.Length == 32 && hex != key
    modifies hex
    ensures hex[..64] == Hex(key[..]) && hex[64] == 0
  {
    var i := 0;
    while i < 32
      invariant 0 <= i <= 32
      invariant forall j :: 0 <= j < i ==> hex[2 * j] == HexDigit(key[j] >> 4) && hex[2 * j + 1] == HexDigit(key[j] & 15)
    {
      EncodeDigitIsTable(key[i] >> 4);
      EncodeDigitIsTable(key[i] & 15);
      hex[2 * i] := EncodeDigit((key[i] >> 4) as word);
      hex[2 * i + 1] := EncodeDigit((key[i] & 15) as word);
      i := i + 1;
    }
    hex[64] := 0;
    forall j | 0 <= j < 64
      ensures hex[..64][j] == Hex(key[..])[j]
    {
      HexAt(key[..], j / 2);
      assert j == 2 * (j / 2) || j == 2 * (j / 2) + 1;
    }
  }

  // the uint8_t variables of `key_from_hex`
  function NumMask(c: byte): byte {
    LowByte(((c ^ 48) as word - 10) >> 8)
  }

  function Alpha(c: byte): byte {
    LowByte(((c & 0xdf) as word) - 55)
  }

  function AlphaMask(c: byte): byte {
    LowByte(((Alpha(c) as word - 10) ^ (Alpha(c) as word - 16)) >> 8)
  }

  function DigitValue(c: byte): byte {
    (NumMask(c) & (c ^ 48)) | (AlphaMask(c) & Alpha(c))
  }

  function DigitError(c: byte): byte {
    LowByte(Shift8((NumMask(c) | AlphaMask(c)) as word - 1))
  }

  /** A digit of either case gives its value, and nothing else passes. */
  lemma DigitMeaning(c: byte)
    ensures DigitError(c) == 0 <==> IsHex(c)
    ensures IsHex(c) ==> DigitValue(c) < 16 && HexDigit(DigitValue(c)) == Lower(c)
  {
  }

  lemma HexDigitMeaning(v: byte)
    requires v < 16
    ensures IsHex(HexDigit(v)) && Lower(HexDigit(v)) == HexDigit(v)
  {
  }

  lemma NibblesOf(high: byte, low: byte)
    requires high < 16 && low < 16
    ensures ((high * 16) | low) >> 4 == high && ((high * 16) | low) & 15 == low
  {
  }

  /** `key_from_hex` accepts exactly the 64-digit texts, in either case, and re-encoding the
      key gives the text in lower case. */
  method KeyFromHex(key: array<byte>, hex: seq<byte>) returns (ok: bool)
    requires key.Length == 32
    modifies key
    ensures ok <==> |hex| == 64 && forall i :: 0 <= i < 64 ==> IsHex(hex[i])
    ensures ok ==> Hex(key[..]) == Lowered(hex)
  {
    if |hex| != 64 {
      return false;
    }
    var ret: byte := 0;
    var i := 0;
    while i < 64
      invariant 0 <= i <= 64 && i % 2 == 0
      invariant ret == 0 <==> forall j :: 0 <= j < i ==> IsHex(hex[j])
      invariant ret == 0 ==> forall j :: 0 <= j < i / 2 ==>
        HexDigit(key[j] >> 4) == Lower(hex[2 * j]) && HexDigit(key[j] & 15) == Lower(hex[2 * j + 1])
    {
      DigitMeaning(hex[i]);
      DigitMeaning(hex[i + 1]);
      OrIsZero(ret, DigitError(hex[i]));
      OrIsZero(ret | DigitError(hex[i]), DigitError(hex[i + 1]));
      ret := ret | DigitError(hex[i]);
      var acc: byte := DigitValue(hex[i]) * 16;
      ret := ret | DigitError(hex[i + 1]);
      if ret == 0 {
        NibblesOf(DigitValue(hex[i]), DigitValue(hex[i + 1]));
      }
      key[i / 2] := acc | DigitValue(hex[i + 1]);
      i := i + 2;
    }
    RetIsZero(ret);
    ok := 1 & Shift8(ret as word - 1) == 1;
    if ok {
      forall j | 0 <= j < 64
        ensures Hex(key[..])[j] == Lowered(hex)[j]
      {
        HexAt(key[..], j / 2);
        assert j == 2 * (j / 2) || j == 2 * (j / 2) + 1;
      }
    }
  }

  /** Decoding what `key_to_hex` writes gives the key back: no other key has that text. */
  lemma {:induction false} HexInjective(k: seq<byte>, k': seq<byte>)
    requires |k| == |k'| && Hex(k) == Hex(k')
    ensures k == k'
  {
    hide HexDigit;
    if k != [] {
      assert Hex(k)[0] == Hex(k')[0] && Hex(k)[1] == Hex(k')[1];
      assert Hex(k)[2..] == Hex(k[1..]) && Hex(k')[2..] == Hex(k'[1..]);
      DigitsOfByte(k[0], k'[0]);
      HexInjective(k[1..], k'[1..]);
      assert k == [k[0]] + k[1..] && k' == [k'[0]] + k'[1..];
    }
  }

  lemma DigitsOfByte(x: byte, y: byte)
    requires HexDigit(x >> 4) == HexDigit(y >> 4) && HexDigit(x & 15) == HexDigit(y & 15)
    ensures x == y
  {
  }

  lemma {:induction false} HexIsLower(k: seq<byte>)
    ensures Lowered(Hex(k)) == Hex(k) && forall i :: 0 <= i < |Hex(k)| ==> IsHex(Hex(k)[i])
  {
    if k != [] {
      HexIsLower(k[1..]);
      HexDigitMeaning(k[0] >> 4);
      HexDigitMeaning(k[0] & 15);
      forall i | 0 <= i < |Hex(k)|
        ensures IsHex(Hex(k)[i]) && Lower(Hex(k)[i]) == Hex(k)[i]
      {
        if i >= 2 {
          assert Hex(k)[i] == Hex(k[1..])[i - 2];
          assert Lowered(Hex(k[1..]))[i - 2] == Lower(Hex(k[1..])[i - 2]);
        }
      }
    }
  }

  /** Both pairs of functions, one after the other. */
  method RoundTrips(key: array<byte>) returns (fromBase64: array<byte>, fromHex: array<byte>)
    requires key.Length == 32
    ensures fromBase64[..] == key[..] && fromHex[..] == key[..]
  {
    var base64, hex := new byte[45], new byte[65];
    fromBase64, fromHex := new byte[32], new byte[32];
    KeyToBase64(base64, key);
    var ok := KeyFromBase64(fromBase64, base64[..44]);
    assert ok;
    Base64Injective(fromBase64[..], key[..]);
    KeyToHex(hex, key);
    HexIsLower(key[..]);
    ok := KeyFromHex(fromHex, hex[..64]);
    assert ok;
    HexInjective(fromHex[..], key[..]);
  }

  // ----- comparison -----

  lemma DifferenceIsKept(acc: byte, x: byte, y: byte)
    ensures acc | (x ^ y) == 0 <==> acc == 0 && x == y
  {
  }

  /** `key_eq`: every byte is looked at, and only the end of the loop tells the keys apart. */
  method KeyEq(key1: array<byte>, key2: array<byte>) returns (same: bool)
    requires key1.Length == key2.Length == 32
    ensures same <==> key1[..] == key2[..]
  {
    hide Shift8;
    var acc: byte := 0;
    var i := 0;
    while i < 32
      invariant 0 <= i <= 32
      invariant acc == 0 <==> key1[..i] == key2[..i]
    {
      DifferenceIsKept(acc, key1[i], key2[i]);
      assert key1[..i + 1] == key1[..i] + [key1[i]] && key2[..i + 1] == key2[..i] + [key2[i]];
      acc := acc | (key1[i] ^ key2[i]);
      i := i + 1;
    }
    assert key1[..32] == key1[..] && key2[..32] == key2[..];
    RetIsZero(acc);
    same := 1 & Shift8(acc as word - 1) == 1;
  }
}
