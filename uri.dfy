/** `decodeURIComponent` and its inverse `encodeURIComponent`, over strings
    of Unicode code points: a `%XX` escape is one UTF-8 byte, and a run of
    them must spell one well-formed UTF-8 sequence or the call throws
    `URIError` (here: `None`). */
module Uri {
  import opened Wrappers
  import opened JsString

  // ---------------------------------------------------------------------
  // Decoding
  // ---------------------------------------------------------------------

  /** The byte of a `%XX` escape at the start of `t`, if there is one. */
  function PctByte(t: string): (b: Option<int>)
    ensures b.Some? ==> 0 <= b.value < 256
  {
    if |t| >= 3 && t[0] == '%' && IsHexDigit(t[1]) && IsHexDigit(t[2])
    then Some(16 * HexDigitValue(t[1]) + HexDigitValue(t[2]))
    else None
  }

  /** The `i`-th escape after the first is a UTF-8 continuation byte
      (`10xxxxxx`); its low six bits. */
  function ContBits(t: string, i: nat): (v: Option<int>)
    ensures v.Some? ==> 0 <= v.value < 64
  {
    if |t| < 3 * i + 3 then None
    else match PctByte(t[3 * i..])
      case Some(b) => if 0x80 <= b < 0xC0 then Some(b - 0x80) else None
      case None => None
  }

  /** The code point that the escapes at the start of `s` spell out, with
      how many characters they take; `None` where the spec throws: a
      missing or malformed escape, a stray continuation or over-long lead
      byte, too few continuation bytes, an over-long form, a surrogate, or
      a value past U+10FFFF. */
  function DecodeEscape(s: string): (r: Option<(char, nat)>)
    ensures r.Some? ==> 3 <= r.value.1 <= |s|
  {
    match PctByte(s)
    case None => None
    case Some(b) =>
      if b < 0x80 then Some((b as char, 3))
      else if 0xC0 <= b < 0xE0 then
        match ContBits(s, 1)
        case None => None
        case Some(c1) =>
          var cp := (b - 0xC0) * 64 + c1;
          if cp < 0x80 then None else Some((cp as char, 6))
      else if 0xE0 <= b < 0xF0 then
        match (ContBits(s, 1), ContBits(s, 2))
        case (Some(c1), Some(c2)) =>
          var cp := (b - 0xE0) * 4096 + c1 * 64 + c2;
          if cp < 0x800 || 0xD800 <= cp < 0xE000 then None else Some((cp as char, 9))
        case _ => None
      else if 0xF0 <= b < 0xF8 then
        match (ContBits(s, 1), ContBits(s, 2), ContBits(s, 3))
        case (Some(c1), Some(c2), Some(c3)) =>
          var cp := (b - 0xF0) * 262144 + c1 * 4096 + c2 * 64 + c3;
          if cp < 0x10000 || cp > 0x10FFFF then None else Some((cp as char, 12))
        case _ => None
      else None
  }

  function Prepend(c: char, rest: Option<string>): Option<string> {
    match rest
    case None => None
    case Some(s) => Some([c] + s)
  }

  /** `decodeURIComponent(s)`; `None` is a thrown `URIError`. */
  function DecodeURIComponent(s: string): Option<string>
    decreases |s|
  {
    if s == [] then Some([])
    else if s[0] != '%' then Prepend(s[0], DecodeURIComponent(s[1..]))
    else match DecodeEscape(s)
      case None => None
      case Some((c, used)) => Prepend(c, DecodeURIComponent(s[used..]))
  }

  /** Text with no `%` decodes to itself. */
  lemma {:induction false} DecodeWithoutPercent(s: string)
    requires '%' !in s
    ensures DecodeURIComponent(s) == Some(s)
  {
    if s != [] {
      DecodeWithoutPercent(s[1..]);
      assert s == [s[0]] + s[1..];
    }
  }

  /** A `%` that does not start two hex digits makes decoding throw. */
  lemma {:induction false} DecodeRejectsBarePercent(prefix: string, rest: string)
    requires '%' !in prefix
    requires rest == [] || !IsHexDigit(rest[0])
    ensures DecodeURIComponent(prefix + "%" + rest) == None
    decreases |prefix|
  {
    var s := prefix + "%" + rest;
    if prefix == [] {
      assert s == "%" + rest;
      assert PctByte(s) == None by {
        if |s| >= 3 { assert s[1] == rest[0]; }
      }
    } else {
      assert s[1..] == prefix[1..] + "%" + rest;
      DecodeRejectsBarePercent(prefix[1..], rest);
    }
  }

  // ---------------------------------------------------------------------
  // Encoding
  // ---------------------------------------------------------------------

  /** The characters `encodeURIComponent` leaves alone. */
  predicate Unreserved(c: char) {
    IsAsciiLetter(c) || IsDigit(c)
    || c == '-' || c == '_' || c == '.' || c == '!' || c == '~'
    || c == '*' || c == '\'' || c == '(' || c == ')'
  }

  /** An upper-case hex digit. */
  function HexChar(v: int): (c: char)
    requires 0 <= v < 16
  {
    if v < 10 then ('0' as int + v) as char else ('A' as int + v - 10) as char
  }

  /** An upper-case hex digit reads back as its value. */
  lemma HexCharValue(v: int)
    requires 0 <= v < 16
    ensures IsHexDigit(HexChar(v)) && HexDigitValue(HexChar(v)) == v
  {
  }

  /** `%XX` for one byte. */
  function Pct(b: int): (t: string)
    requires 0 <= b < 256
    ensures |t| == 3 && t[0] == '%'
  {
    ['%', HexChar(b / 16), HexChar(b % 16)]
  }

  /** An escape reads back as its byte. */
  lemma PctReadsBack(b: int)
    requires 0 <= b < 256
    ensures PctByte(Pct(b)) == Some(b)
  {
    HexCharValue(b / 16);
    HexCharValue(b % 16);
  }

  /** The UTF-8 bytes of a code point, each as an escape: the code point
      cut into six-bit groups from the low end. */
  function EncodeChar(c: char): (t: string)
    ensures Unreserved(c) ==> t == [c]
    ensures !Unreserved(c) ==> |t| >= 3 && t[0] == '%'
  {
    var cp := c as int;
    var q1, r1 := cp / 64, cp % 64;
    var q2, r2 := q1 / 64, q1 % 64;
    var q3, r3 := q2 / 64, q2 % 64;
    if Unreserved(c) then [c]
    else if cp < 0x80 then Pct(cp)
    else if cp < 0x800 then Pct(0xC0 + q1) + Pct(0x80 + r1)
    else if cp < 0x10000 then Pct(0xE0 + q2) + Pct(0x80 + r2) + Pct(0x80 + r1)
    else Pct(0xF0 + q3) + Pct(0x80 + r3) + Pct(0x80 + r2) + Pct(0x80 + r1)
  }

  /** `encodeURIComponent(s)`. */
  function EncodeURIComponent(s: string): (t: string)
    ensures '&' !in t
    ensures |s| <= |t|
  {
    if s == [] then []
    else
      EncodeCharNoAmpersand(s[0]);
      EncodeChar(s[0]) + EncodeURIComponent(s[1..])
  }

  /** An escape is `%` and two hex digits, so never `&`. */
  lemma PctNoAmpersand(b: int)
    requires 0 <= b < 256
    ensures '&' !in Pct(b)
  {
    HexCharValue(b / 16);
    HexCharValue(b % 16);
  }

  /** `encodeURIComponent` escapes `&`, so no encoded character is one. */
  lemma EncodeCharNoAmpersand(c: char)
    ensures '&' !in EncodeChar(c)
  {
    var cp := c as int;
    var q1, r1 := cp / 64, cp % 64;
    var q2, r2 := q1 / 64, q1 % 64;
    var q3, r3 := q2 / 64, q2 % 64;
    if Unreserved(c) {
    } else if cp < 0x80 {
      PctNoAmpersand(cp);
    } else if cp < 0x800 {
      PctNoAmpersand(0xC0 + q1);
      PctNoAmpersand(0x80 + r1);
    } else if cp < 0x10000 {
      PctNoAmpersand(0xE0 + q2);
      PctNoAmpersand(0x80 + r2);
      PctNoAmpersand(0x80 + r1);
    } else {
      PctNoAmpersand(0xF0 + q3);
      PctNoAmpersand(0x80 + r3);
      PctNoAmpersand(0x80 + r2);
      PctNoAmpersand(0x80 + r1);
    }
  }

  /** Escapes of continuation bytes read back as their low six bits. */
  lemma ContBitsOfPct(pre: string, b: int, rest: string, i: nat)
    requires |pre| == 3 * i && 0x80 <= b < 0xC0
    ensures ContBits(pre + Pct(b) + rest, i) == Some(b - 0x80)
  {
    assert (pre + Pct(b) + rest)[3 * i..] == Pct(b) + rest;
    PctByteOfPct(b, rest);
  }

  /** The lead escape of `Pct(b) + rest` reads as `b`. */
  lemma PctByteOfPct(b: int, rest: string)
    requires 0 <= b < 256
    ensures PctByte(Pct(b) + rest) == Some(b)
  {
    PctReadsBack(b);
    assert (Pct(b) + rest)[..3] == Pct(b);
  }

  /** A two-byte sequence decodes to its code point. */
  lemma DecodeTwoBytes(c: char, rest: string)
    requires 0x80 <= c as int < 0x800 && !Unreserved(c)
    ensures DecodeEscape(EncodeChar(c) + rest) == Some((c, 6))
    ensures (EncodeChar(c) + rest)[6..] == rest
  {
    var cp := c as int;
    var b0, b1 := 0xC0 + cp / 64, 0x80 + cp % 64;
    var s := EncodeChar(c) + rest;
    assert s == Pct(b0) + Pct(b1) + rest;
    PctByteOfPct(b0, Pct(b1) + rest);
    assert Pct(b0) + (Pct(b1) + rest) == s;
    ContBitsOfPct(Pct(b0), b1, rest, 1);
  }

  /** Three escapes read back as a lead byte and two continuations. */
  lemma ThreeEscapes(b0: int, b1: int, b2: int, rest: string)
    requires 0 <= b0 < 256 && 0x80 <= b1 < 0xC0 && 0x80 <= b2 < 0xC0
    ensures var s := Pct(b0) + Pct(b1) + Pct(b2) + rest;
            PctByte(s) == Some(b0) && ContBits(s, 1) == Some(b1 - 0x80)
            && ContBits(s, 2) == Some(b2 - 0x80) && s[9..] == rest
  {
    var s := Pct(b0) + Pct(b1) + Pct(b2) + rest;
    PctByteOfPct(b0, Pct(b1) + Pct(b2) + rest);
    assert Pct(b0) + (Pct(b1) + Pct(b2) + rest) == s;
    ContBitsOfPct(Pct(b0), b1, Pct(b2) + rest, 1);
    assert Pct(b0) + Pct(b1) + (Pct(b2) + rest) == s;
    ContBitsOfPct(Pct(b0) + Pct(b1), b2, rest, 2);
  }

  /** Four escapes read back as a lead byte and three continuations. */
  lemma FourEscapes(b0: int, b1: int, b2: int, b3: int, rest: string)
    requires 0 <= b0 < 256 && 0x80 <= b1 < 0xC0 && 0x80 <= b2 < 0xC0 && 0x80 <= b3 < 0xC0
    ensures var s := Pct(b0) + Pct(b1) + Pct(b2) + Pct(b3) + rest;
            PctByte(s) == Some(b0) && ContBits(s, 1) == Some(b1 - 0x80)
            && ContBits(s, 2) == Some(b2 - 0x80) && ContBits(s, 3) == Some(b3 - 0x80)
            && s[12..] == rest
  {
    var s := Pct(b0) + Pct(b1) + Pct(b2) + Pct(b3) + rest;
    ThreeEscapes(b0, b1, b2, Pct(b3) + rest);
    assert Pct(b0) + Pct(b1) + Pct(b2) + (Pct(b3) + rest) == s;
    ContBitsOfPct(Pct(b0) + Pct(b1) + Pct(b2), b3, rest, 3);
  }

  /** A lead byte `1110xxxx` and two continuations spelling a code point
      in range decode to it. */
  lemma DecodeThreeOf(s: string, q2: int, r2: int, r1: int)
    requires 0 <= q2 < 16 && 0 <= r2 < 64 && 0 <= r1 < 64
    requires PctByte(s) == Some(0xE0 + q2) && ContBits(s, 1) == Some(r2) && ContBits(s, 2) == Some(r1)
    requires 0x800 <= q2 * 4096 + r2 * 64 + r1 && !(0xD800 <= q2 * 4096 + r2 * 64 + r1 < 0xE000)
    ensures DecodeEscape(s) == Some(((q2 * 4096 + r2 * 64 + r1) as char, 9))
  {
  }

  /** A lead byte `11110xxx` and three continuations spelling a code point
      in range decode to it. */
  lemma DecodeFourOf(s: string, c: char, q3: int, r3: int, r2: int, r1: int)
    requires 0 <= q3 < 8 && 0 <= r3 < 64 && 0 <= r2 < 64 && 0 <= r1 < 64
    requires PctByte(s) == Some(0xF0 + q3) && ContBits(s, 1) == Some(r3)
             && ContBits(s, 2) == Some(r2) && ContBits(s, 3) == Some(r1)
    requires 0x10000 <= c as int == q3 * 262144 + r3 * 4096 + r2 * 64 + r1
    ensures DecodeEscape(s) == Some((c, 12))
  {
  }

  /** A code point of up to 21 bits is its six-bit groups recombined. */
  lemma SixBitGroups(cp: int)
    requires 0 <= cp <= 0x10FFFF
    ensures var q1, r1 := cp / 64, cp % 64;
            var q2, r2 := q1 / 64, q1 % 64;
            var q3, r3 := q2 / 64, q2 % 64;
            q3 < 8 && q3 * 262144 + r3 * 4096 + r2 * 64 + r1 == cp
  {
    var q1, r1 := cp / 64, cp % 64;
    var q2, r2 := q1 / 64, q1 % 64;
    var q3, r3 := q2 / 64, q2 % 64;
    assert q2 * 64 + r2 == q1;
    assert q3 * 64 + r3 == q2;
  }

  /** A three-byte sequence decodes to its code point. */
  lemma DecodeThreeBytes(c: char, rest: string)
    requires 0x800 <= c as int < 0x10000
    ensures DecodeEscape(EncodeChar(c) + rest) == Some((c, 9))
    ensures (EncodeChar(c) + rest)[9..] == rest
  {
    var q2, r2, r1 := EncodeThreeGroups(c);
    var s := Pct(0xE0 + q2) + Pct(0x80 + r2) + Pct(0x80 + r1) + rest;
    ThreeEscapes(0xE0 + q2, 0x80 + r2, 0x80 + r1, rest);
    DecodeThreeOf(s, q2, r2, r1);
  }

  /** The three escapes `encodeURIComponent` writes for a code point in
      U+0800..U+FFFF, with the six-bit groups they carry. */
  lemma EncodeThreeGroups(c: char) returns (q2: int, r2: int, r1: int)
    requires 0x800 <= c as int < 0x10000
    ensures 0 <= q2 < 16 && 0 <= r2 < 64 && 0 <= r1 < 64
    ensures c as int == q2 * 4096 + r2 * 64 + r1
    ensures EncodeChar(c) == Pct(0xE0 + q2) + Pct(0x80 + r2) + Pct(0x80 + r1)
  {
    var cp := c as int;
    var q1;
    q1, r1 := cp / 64, cp % 64;
    q2, r2 := q1 / 64, q1 % 64;
    assert q2 * 64 + r2 == q1;
    EncodeCharThree(c, q2, r2, r1);
  }

  /** The four escapes `encodeURIComponent` writes for a code point past
      U+FFFF, with the six-bit groups they carry. */
  lemma EncodeFourGroups(c: char) returns (q3: int, r3: int, r2: int, r1: int)
    requires 0x10000 <= c as int
    ensures 0 <= q3 < 8 && 0 <= r3 < 64 && 0 <= r2 < 64 && 0 <= r1 < 64
    ensures c as int == q3 * 262144 + r3 * 4096 + r2 * 64 + r1
    ensures EncodeChar(c) == Pct(0xF0 + q3) + Pct(0x80 + r3) + Pct(0x80 + r2) + Pct(0x80 + r1)
  {
    var cp := c as int;
    var q1, q2;
    q1, r1 := cp / 64, cp % 64;
    q2, r2 := q1 / 64, q1 % 64;
    q3, r3 := q2 / 64, q2 % 64;
    SixBitGroups(cp);
    EncodeCharFour(c, q3, r3, r2, r1);
  }

  /** Past U+FFFF a character is always escaped, as four bytes. */
  lemma EncodeCharFour(c: char, q3: int, r3: int, r2: int, r1: int)
    requires 0x10000 <= c as int
    requires q3 == c as int / 64 / 64 / 64 && r3 == c as int / 64 / 64 % 64
    requires r2 == c as int / 64 % 64 && r1 == c as int % 64
    ensures EncodeChar(c) == Pct(0xF0 + q3) + Pct(0x80 + r3) + Pct(0x80 + r2) + Pct(0x80 + r1)
  {
  }

  /** In U+0800..U+FFFF a character is always escaped, as three bytes. */
  lemma EncodeCharThree(c: char, q2: int, r2: int, r1: int)
    requires 0x800 <= c as int < 0x10000
    requires q2 == c as int / 64 / 64 && r2 == c as int / 64 % 64 && r1 == c as int % 64
    ensures EncodeChar(c) == Pct(0xE0 + q2) + Pct(0x80 + r2) + Pct(0x80 + r1)
  {
  }

  /** A four-byte sequence decodes to its code point. */
  lemma DecodeFourBytes(c: char, rest: string)
    requires 0x10000 <= c as int
    ensures DecodeEscape(EncodeChar(c) + rest) == Some((c, 12))
    ensures (EncodeChar(c) + rest)[12..] == rest
  {
    var q3, r3, r2, r1 := EncodeFourGroups(c);
    var s := Pct(0xF0 + q3) + Pct(0x80 + r3) + Pct(0x80 + r2) + Pct(0x80 + r1) + rest;
    FourEscapes(0xF0 + q3, 0x80 + r3, 0x80 + r2, 0x80 + r1, rest);
    DecodeFourOf(s, c, q3, r3, r2, r1);
  }

  /** Decoding reads one encoded character back and goes on with what
      follows. */
  lemma DecodeEncodedChar(c: char, rest: string)
    ensures DecodeURIComponent(EncodeChar(c) + rest) == Prepend(c, DecodeURIComponent(rest))
  {
    var s := EncodeChar(c) + rest;
    var cp := c as int;
    if Unreserved(c) {
      assert s[1..] == rest;
    } else if cp < 0x80 {
      PctByteOfPct(cp, rest);
      assert s[3..] == rest;
    } else if cp < 0x800 {
      DecodeTwoBytes(c, rest);
    } else if cp < 0x10000 {
      DecodeThreeBytes(c, rest);
    } else {
      DecodeFourBytes(c, rest);
    }
  }

  /** `decodeURIComponent(encodeURIComponent(s)) === s` for every string. */
  lemma {:induction false} DecodeEncode(s: string)
    ensures DecodeURIComponent(EncodeURIComponent(s)) == Some(s)
  {
    if s != [] {
      DecodeEncodedChar(s[0], EncodeURIComponent(s[1..]));
      DecodeEncode(s[1..]);
      assert s == [s[0]] + s[1..];
    }
  }
}
