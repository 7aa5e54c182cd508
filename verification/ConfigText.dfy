/** The string handling that the wg-quick reader and writer rely on. */
module ConfigText {
  import opened Options

  // ----- characters -----

  predicate IsNewline(c: char) {
    '\n' <= c <= '\r' || c == '\U{85}' || c == '\U{2028}' || c == '\U{2029}'
  }

  predicate IsComma(c: char) {
    c == ','
  }

  predicate IsSpace(c: char) {
    || IsNewline(c) || c == '\t' || c == ' ' || c == '\U{A0}' || c == '\U{1680}'
    || '\U{2000}' <= c <= '\U{200A}' || c == '\U{202F}' || c == '\U{205F}' || c == '\U{3000}'
  }

  predicate Without(p: char -> bool, s: string) {
    forall i :: 0 <= i < |s| ==> !p(s[i])
  }

  // ----- searching -----

  /** The first position of c, or the length of s. */
  function Find(c: char, s: string): (i: nat)
    ensures i <= |s| && c !in s[..i]
    ensures i < |s| ==> s[i] == c
  {
    if s == [] || s[0] == c then 0 else 1 + Find(c, s[1..])
  }

  lemma FindIs(c: char, s: string, i: nat)
    requires i <= |s| && c !in s[..i] && (i < |s| ==> s[i] == c)
    ensures Find(c, s) == i
  {
    var j := Find(c, s);
    if j < i {
      NotBefore(c, s, i, j);
    } else if i < j {
      NotBefore(c, s, j, i);
    }
  }

  lemma NotBefore(c: char, s: string, i: int, j: int)
    requires 0 <= j < i <= |s| && c !in s[..i]
    ensures s[j] != c
  {
    assert s[..i][j] == s[j];
  }

  /** Where the first piece of s ends. */
  function PieceEnd(separates: char -> bool, s: string): (i: nat)
    ensures i <= |s| && Without(separates, s[..i])
    ensures i < |s| ==> separates(s[i])
  {
    if s == [] || separates(s[0]) then 0 else 1 + PieceEnd(separates, s[1..])
  }

  lemma PieceEndIs(separates: char -> bool, s: string, i: nat)
    requires i <= |s| && Without(separates, s[..i]) && (i < |s| ==> separates(s[i]))
    ensures PieceEnd(separates, s) == i
  {
    var j := PieceEnd(separates, s);
    if j < i {
      WithoutBefore(separates, s, i, j);
    } else if i < j {
      WithoutBefore(separates, s, j, i);
    }
  }

  lemma WithoutBefore(separates: char -> bool, s: string, i: int, j: int)
    requires 0 <= j < i <= |s| && Without(separates, s[..i])
    ensures !separates(s[j])
  {
    assert s[..i][j] == s[j];
  }

  // ----- splitting: empty pieces are dropped -----

  function NonEmpty(s: string): seq<string> {
    if s == "" then [] else [s]
  }

  function Pieces(separates: char -> bool, s: string): seq<string>
    decreases |s|
  {
    var i := PieceEnd(separates, s);
    NonEmpty(s[..i]) + if i == |s| then [] else Pieces(separates, s[i + 1..])
  }

  lemma PiecesNext(separates: char -> bool, s: string, c: char, rest: string)
    requires Without(separates, s) && separates(c)
    ensures Pieces(separates, s + [c] + rest) == NonEmpty(s) + Pieces(separates, rest)
  {
    var all := s + [c] + rest;
    assert all[..|s|] == s && all[|s|] == c && all[|s| + 1..] == rest;
    PieceEndIs(separates, all, |s|);
  }

  lemma PiecesWhole(separates: char -> bool, s: string)
    requires Without(separates, s)
    ensures Pieces(separates, s) == NonEmpty(s)
  {
    assert s[..|s|] == s;
    PieceEndIs(separates, s, |s|);
  }

  /** No piece is empty, contains a separator, or has a character that s lacks. */
  lemma {:induction false} PiecesAreClean(separates: char -> bool, s: string)
    ensures forall p :: p in Pieces(separates, s) ==> p != "" && Without(separates, p) && forall c :: c in p ==> c in s
    decreases |s|
  {
    var i := PieceEnd(separates, s);
    if i < |s| {
      PiecesAreClean(separates, s[i + 1..]);
    }
  }

  function Join(separator: string, parts: seq<string>): string {
    if parts == [] then "" else if |parts| == 1 then parts[0] else parts[0] + separator + Join(separator, parts[1..])
  }

  lemma {:induction false} JoinSnoc(separator: string, parts: seq<string>, last: string)
    requires parts != []
    ensures Join(separator, parts + [last]) == Join(separator, parts) + separator + last
  {
    var all := parts + [last];
    assert all[1..] == parts[1..] + [last];
    if |parts| == 1 {
      assert all[1..] == [last];
    } else {
      JoinSnoc(separator, parts[1..], last);
    }
  }

  // ----- trimming -----

  function TrimStart(s: string): string {
    if s != "" && IsSpace(s[0]) then TrimStart(s[1..]) else s
  }

  function TrimEnd(s: string): string {
    if s != "" && IsSpace(s[|s| - 1]) then TrimEnd(s[..|s| - 1]) else s
  }

  function Trim(s: string): string {
    TrimEnd(TrimStart(s))
  }

  predicate IsTrimmed(s: string) {
    s != "" ==> !IsSpace(s[0]) && !IsSpace(s[|s| - 1])
  }

  lemma {:induction false} TrimStartMeaning(s: string)
    ensures |TrimStart(s)| <= |s| && TrimStart(s) == s[|s| - |TrimStart(s)|..]
    ensures TrimStart(s) != "" ==> !IsSpace(TrimStart(s)[0])
  {
    if s != "" && IsSpace(s[0]) {
      TrimStartMeaning(s[1..]);
    }
  }

  lemma {:induction false} TrimEndMeaning(s: string)
    ensures TrimEnd(s) <= s
    ensures TrimEnd(s) != "" ==> !IsSpace(TrimEnd(s)[|TrimEnd(s)| - 1])
  {
    if s != "" && IsSpace(s[|s| - 1]) {
      TrimEndMeaning(s[..|s| - 1]);
    }
  }

  lemma TrimMeaning(s: string)
    ensures IsTrimmed(Trim(s))
    ensures forall c :: c in Trim(s) ==> c in s
  {
    hide IsSpace;
    TrimStartMeaning(s);
    TrimEndMeaning(TrimStart(s));
  }

  lemma TrimKeeps(s: string)
    requires IsTrimmed(s)
    ensures Trim(s) == s
  {
  }

  lemma TrimSpaceBefore(s: string)
    ensures Trim(" " + s) == Trim(s)
  {
    assert (" " + s)[1..] == s;
  }

  lemma TrimSpaceAfter(s: string)
    requires IsTrimmed(s)
    ensures Trim(s + " ") == s
  {
    var all := s + " ";
    assert all[..|all| - 1] == s;
    if s == "" {
      assert all[1..] == "";
      assert TrimStart(all) == TrimStart("") == "";
    } else {
      assert TrimStart(all) == all;
      assert TrimEnd(all) == TrimEnd(s) == s;
    }
  }

  // ----- decimal numbers -----

  type uint16 = x: int | 0 <= x < 0x1_0000

  function Digit(d: nat): char
    requires d < 10
  {
    '0' + d as char
  }

  predicate IsDigit(c: char) {
    '0' <= c <= '9'
  }

  function Decimal(n: nat): (s: string)
    ensures s != "" && forall i :: 0 <= i < |s| ==> IsDigit(s[i])
  {
    if n < 10 then [Digit(n)] else Decimal(n / 10) + [Digit(n % 10)]
  }

  function PortText(n: uint16): string {
    Decimal(n)
  }

  function Units(c: char): nat
    requires IsDigit(c)
  {
    c as nat - '0' as nat
  }

  function DigitsValue(s: string): nat
    requires forall i :: 0 <= i < |s| ==> IsDigit(s[i])
  {
    if s == "" then 0 else 10 * DigitsValue(s[..|s| - 1]) + Units(s[|s| - 1])
  }

  predicate AreDigits(s: string) {
    s != "" && forall i :: 0 <= i < |s| ==> IsDigit(s[i])
  }

  /** A sign may come first; only zero may be negative. */
  function ParseUInt16(s: string): Option<uint16> {
    var signed := s != "" && (s[0] == '+' || s[0] == '-');
    var digits := if signed then s[1..] else s;
    if !AreDigits(digits) then None
    else
      var n := DigitsValue(digits);
      if n >= 0x1_0000 || (signed && s[0] == '-' && n != 0) then None else Some(n)
  }

  lemma {:induction false} DecimalValue(n: nat)
    ensures DigitsValue(Decimal(n)) == n
  {
    if n < 10 {
      assert Decimal(n)[..0] == "";
    } else {
      DecimalValue(n / 10);
      var s := Decimal(n);
      assert s[..|s| - 1] == Decimal(n / 10);
    }
  }

  lemma DecimalRoundTrip(n: uint16)
    ensures ParseUInt16(PortText(n)) == Some(n)
  {
    DecimalValue(n);
    assert IsDigit(Decimal(n)[0]);
  }

  predicate AllZeros(s: string) {
    forall i :: 0 <= i < |s| ==> s[i] == '0'
  }

  lemma {:induction false} ZerosAddNothing(zeros: string, s: string)
    requires AllZeros(zeros) && forall i :: 0 <= i < |s| ==> IsDigit(s[i])
    ensures (forall i :: 0 <= i < |zeros + s| ==> IsDigit((zeros + s)[i])) && DigitsValue(zeros + s) == DigitsValue(s)
    decreases |zeros| + |s|
  {
    var all := zeros + s;
    if s != "" {
      assert all[..|all| - 1] == zeros + s[..|s| - 1];
      ZerosAddNothing(zeros, s[..|s| - 1]);
    } else if zeros != "" {
      assert all == zeros && zeros[..|zeros| - 1] + "" == zeros[..|zeros| - 1];
      ZerosAddNothing(zeros[..|zeros| - 1], "");
    }
  }

  lemma ParseUnsigned(digits: string)
    requires AreDigits(digits)
    ensures ParseUInt16(digits) == if DigitsValue(digits) < 65536 then Some(DigitsValue(digits)) else None
  {
    hide DigitsValue;
    assert IsDigit(digits[0]);
  }

  lemma ParseSigned(sign: char, digits: string)
    requires AreDigits(digits) && (sign == '+' || sign == '-')
    ensures ParseUInt16([sign] + digits) ==
            if DigitsValue(digits) < 65536 && (sign == '+' || DigitsValue(digits) == 0) then Some(DigitsValue(digits)) else None
  {
    hide DigitsValue;
    assert ([sign] + digits)[1..] == digits;
  }

  /** A number below 65536 in decimal, with any leading zeros and a plus sign or none; a minus sign only for zero. */
  lemma PortForms(zeros: string, n: nat)
    requires AllZeros(zeros)
    ensures ParseUInt16(zeros + Decimal(n)) == if n < 65536 then Some(n) else None
    ensures ParseUInt16(['+'] + (zeros + Decimal(n))) == if n < 65536 then Some(n) else None
    ensures ParseUInt16(['-'] + (zeros + Decimal(n))) == if n == 0 then Some(0) else None
  {
    ZerosAddNothing(zeros, Decimal(n));
    DecimalValue(n);
    hide ParseUInt16, DigitsValue, Decimal, AllZeros;
    ParseUnsigned(zeros + Decimal(n));
    ParseSigned('+', zeros + Decimal(n));
    ParseSigned('-', zeros + Decimal(n));
  }

  // digits, or a sign and digits
  predicate IsNumeral(s: string) {
    AreDigits(s) || (s != "" && (s[0] == '+' || s[0] == '-') && AreDigits(s[1..]))
  }

  /** No other text is read as a number. */
  lemma OnlyNumerals(s: string)
    ensures ParseUInt16(s).Some? ==> IsNumeral(s)
  {
    hide DigitsValue;
  }
}
