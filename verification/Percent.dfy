/** Percent-encoding as in section 2.1 of RFC 3986: every byte that is not an ASCII letter or digit
    becomes '%' and two hexadecimal digits. The decoder is more liberal, because it leaves the digits
    to std::stoi. */
module Percent {
  import opened Bytes
  import opened Results

  predicate IsAlnum(c: Byte) {
    '0' <= c <= '9' || 'A' <= c <= 'Z' || 'a' <= c <= 'z'
  }

  function HexDigit(x: int): Byte
    requires 0 <= x < 16
  {
    if x < 10 then ('0' as int + x) as char else ('A' as int + x - 10) as char
  }

  predicate IsHex(c: Byte) {
    '0' <= c <= '9' || 'A' <= c <= 'F' || 'a' <= c <= 'f'
  }

  function HexValue(c: Byte): (x: int)
    requires IsHex(c)
    ensures 0 <= x < 16
  {
    if c <= '9' then c as int - '0' as int
    else if c <= 'F' then c as int - 'A' as int + 10
    else c as int - 'a' as int + 10
  }

  function EncodeByte(c: Byte): Str {
    if IsAlnum(c) then [c] else ['%', HexDigit(c as int / 16), HexDigit(c as int % 16)]
  }

  function Encode(s: Str): Str {
    if s == [] then [] else EncodeByte(s[0]) + Encode(s[1..])
  }

  predicate IsSpace(c: Byte) {
    c == ' ' || '\t' <= c <= '\r'
  }

  /** std::stoi of the two-character string "ab" in base 16, cast to a byte: leading white space or a
      sign may take the first place, and an unusable second character ends the number. */
  function HexPair(a: Byte, b: Byte): Option<Byte> {
    if IsHex(a) then
      if IsHex(b) then Some((16 * HexValue(a) + HexValue(b)) as char) else Some(HexValue(a) as char)
    else if (IsSpace(a) || a == '+') && IsHex(b) then Some(HexValue(b) as char)
    else if a == '-' && IsHex(b) then Some(((256 - HexValue(b)) % 256) as char)
    else None
  }

  function Decode(s: Str): Result<Str> {
    if s == [] then Ok([])
    else if s[0] != '%' then
      var rest :- Decode(s[1..]);
      Ok([s[0]] + rest)
    else if |s| < 3 || HexPair(s[1], s[2]).None? then Throws(InvalidArgument)
    else
      var rest :- Decode(s[3..]);
      Ok([HexPair(s[1], s[2]).value] + rest)
  }

  lemma HexDigitValue(x: int)
    requires 0 <= x < 16
    ensures IsHex(HexDigit(x)) && HexValue(HexDigit(x)) == x && IsAlnum(HexDigit(x))
  {
  }

  /** Encoding loses nothing. */
  lemma {:induction false} DecodeEncode(s: Str)
    ensures Decode(Encode(s)) == Ok(s)
  {
    if s != [] {
      DecodeEncode(s[1..]);
      assert s == [s[0]] + s[1..];
      var e, rest := EncodeByte(s[0]), Encode(s[1..]);
      if IsAlnum(s[0]) {
        assert (e + rest)[1..] == rest;
      } else {
        HexDigitValue(s[0] as int / 16);
        HexDigitValue(s[0] as int % 16);
        assert (e + rest)[3..] == rest;
      }
    }
  }

  /** The encoded form can stand between '&', '=' and '?'. */
  lemma {:induction false} EncodedBytes(s: Str)
    ensures forall c :: c in Encode(s) ==> IsAlnum(c) || c == '%'
  {
    if s != [] {
      EncodedBytes(s[1..]);
      if !IsAlnum(s[0]) {
        HexDigitValue(s[0] as int / 16);
        HexDigitValue(s[0] as int % 16);
      }
    }
  }

  /** Decoding shortens exactly the strings that contain '%', and keeps the others. */
  lemma {:induction false} DecodeLength(s: Str)
    ensures Decode(s).Ok? ==> |Decode(s).value| <= |s|
    ensures Decode(s).Ok? && '%' in s ==> |Decode(s).value| < |s|
    ensures '%' !in s ==> Decode(s) == Ok(s)
  {
    if s != [] {
      if s[0] != '%' {
        DecodeLength(s[1..]);
        assert s == [s[0]] + s[1..];
      } else if |s| >= 3 {
        DecodeLength(s[3..]);
      }
    }
  }

  const UPPER: Str := "0123456789ABCDEF"
  const LOWER: Str := "0123456789abcdef"

  lemma HexLetters(h: nat, a: Byte)
    requires h < 16 && (a == UPPER[h] || a == LOWER[h])
    ensures IsHex(a) && HexValue(a) == h
  {
  }

  /** An escape stands for the byte with these two hexadecimal digits, in either case; other bytes stand for themselves. */
  lemma EscapesMean(h: nat, l: nat, a: Byte, b: Byte, c: Byte, s: Str)
    requires h < 16 && l < 16 && (a == UPPER[h] || a == LOWER[h]) && (b == UPPER[l] || b == LOWER[l]) && c != '%'
    ensures Decode(['%', a, b] + s) == Prepend([(16 * h + l) as char], Decode(s))
    ensures Decode([c] + s) == Prepend([c], Decode(s))
  {
    HexLetters(h, a);
    HexLetters(l, b);
    assert (['%', a, b] + s)[3..] == s && ([c] + s)[1..] == s;
  }

  lemma UpperDigits(h: nat)
    requires h < 16
    ensures HexDigit(h) == UPPER[h]
  {
  }

  lemma EncodedByte(c: Byte)
    ensures EncodeByte(c) == if IsAlnum(c) then [c] else ['%', UPPER[c as int / 16], UPPER[c as int % 16]]
  {
    UpperDigits(c as int / 16);
    UpperDigits(c as int % 16);
  }

  /** Letters and digits are written as they are, every other byte as an escape with upper-case digits. */
  lemma EncodedOneByOne(s: Str, c: Byte)
    ensures Encode([c] + s) == (if IsAlnum(c) then [c] else ['%', UPPER[c as int / 16], UPPER[c as int % 16]]) + Encode(s)
    ensures Encode([]) == []
  {
    EncodedByte(c);
    assert ([c] + s)[1..] == s && ([c] + s)[0] == c;
  }

  /** What std::stoi makes of other pairs: white space or a plus sign is skipped, a minus sign negates, a second
      character that is no digit is ignored, and anything else is refused, like an escape that is cut short. */
  lemma OddEscapes(a: Byte, b: Byte, s: Str)
    ensures IsHex(a) && !IsHex(b) ==> Decode(['%', a, b] + s) == Prepend([HexValue(a) as char], Decode(s))
    ensures a in {' ', '\t', '\n', '\r', '+'} && IsHex(b) ==> Decode(['%', a, b] + s) == Prepend([HexValue(b) as char], Decode(s))
    ensures a == '-' && '1' <= b <= '9' ==>
              Decode(['%', a, b] + s) == Prepend([(256 - (b as int - '0' as int)) as char], Decode(s))
    ensures !IsHex(a) && !IsHex(b) ==> Decode(['%', a, b] + s) == Throws(InvalidArgument)
    ensures Decode(['%']) == Throws(InvalidArgument) && Decode(['%', a]) == Throws(InvalidArgument)
  {
    assert (['%', a, b] + s)[3..] == s;
  }

  /** The stream after the first `i` bytes, followed by what the remaining bytes encode to. */
  lemma EncodeStep(s: Str, r: Str, i: nat)
    requires i < |s| && r + Encode(s[i..]) == Encode(s)
    ensures (r + EncodeByte(s[i])) + Encode(s[i + 1..]) == Encode(s)
  {
    assert s[i..][1..] == s[i + 1..];
    assert (r + EncodeByte(s[i])) + Encode(s[i + 1..]) == r + (EncodeByte(s[i]) + Encode(s[i + 1..]));
  }

  method ToPercentEncoding(s: Str) returns (r: Str)
    ensures r == Encode(s)
  {
    r := [];
    assert s[0..] == s;
    for i := 0 to |s|
      invariant r + Encode(s[i..]) == Encode(s)
    {
      EncodeStep(s, r, i);
      if !IsAlnum(s[i]) {
        r := r + ['%', HexDigit(s[i] as int / 16), HexDigit(s[i] as int % 16)];
      } else {
        r := r + [s[i]];
      }
    }
  }

  method FromPercentEncoding(s: Str) returns (r: Result<Str>)
    ensures r == Decode(s)
  {
    var done: Str, i := [], 0;
    assert s[0..] == s;
    while i < |s|
      invariant 0 <= i <= |s|
      invariant Prepend(done, Decode(s[i..])) == Decode(s)
    {
      if s[i] == '%' {
        if i + 2 >= |s| {
          return Throws(InvalidArgument);
        }
        var k := HexPair(s[i + 1], s[i + 2]);
        if k.None? {
          return Throws(InvalidArgument);
        }
        assert s[i..][3..] == s[i + 3..];
        PrependOne(done, k.value, Decode(s[i + 3..]));
        done, i := done + [k.value], i + 3;
      } else {
        assert s[i..][1..] == s[i + 1..];
        PrependOne(done, s[i], Decode(s[i + 1..]));
        done, i := done + [s[i]], i + 1;
      }
    }
    return Ok(done);
  }
}
