/** UTF-8 (RFC 3629) and URL-safe base64 (section 5 of RFC 4648), the two byte
    encodings under a consent token, with the decoders Python pairs them with. */
module Encoding {
  import opened Text

  type Byte = b: int | 0 <= b < 256

  // ------------------------------------------------------------------
  // UTF-8: str.encode() and bytes.decode()
  // ------------------------------------------------------------------

  function EncodeChar(c: char): (bytes: seq<Byte>)
    ensures 1 <= |bytes| <= 4
  {
    var n := c as int;
    if n < 0x80 then [n]
    else if n < 0x800 then [0xC0 + n / 64, 0x80 + n % 64]
    else if n < 0x10000 then [0xE0 + n / 64 / 64, 0x80 + n / 64 % 64, 0x80 + n % 64]
    else [0xF0 + n / 64 / 64 / 64, 0x80 + n / 64 / 64 % 64, 0x80 + n / 64 % 64, 0x80 + n % 64]
  }

  function EncodeUtf8(s: string): seq<Byte> {
    if s == [] then [] else EncodeChar(s[0]) + EncodeUtf8(s[1..])
  }

  predicate IsContinuation(b: Byte) {
    0x80 <= b < 0xC0
  }

  function Low(b: Byte): int {
    b as int - 0x80
  }

  /** The scalar value in bytes[from..] and how many bytes it takes; overlong forms,
      surrogates and values past U+10FFFF are refused. */
  function DecodeChar(bytes: seq<Byte>): (r: Option<(char, nat)>)
    requires bytes != []
    ensures r.Some? ==> 1 <= r.value.1 <= |bytes|
  {
    var b: int := bytes[0];
    if b < 0x80 then Some((b as char, 1))
    else if 0xC0 <= b < 0xE0 && |bytes| >= 2 && IsContinuation(bytes[1]) then
      var n := (b - 0xC0) * 64 + Low(bytes[1]);
      if n < 0x80 then None else Some((n as char, 2))
    else if 0xE0 <= b < 0xF0 && |bytes| >= 3 && IsContinuation(bytes[1]) && IsContinuation(bytes[2]) then
      var n := (b - 0xE0) * 4096 + Low(bytes[1]) * 64 + Low(bytes[2]);
      if n < 0x800 || 0xD800 <= n < 0xE000 then None else Some((n as char, 3))
    else if 0xF0 <= b < 0xF8 && |bytes| >= 4 && IsContinuation(bytes[1]) && IsContinuation(bytes[2])
            && IsContinuation(bytes[3]) then
      var n := (b - 0xF0) * 262144 + Low(bytes[1]) * 4096 + Low(bytes[2]) * 64 + Low(bytes[3]);
      if n < 0x10000 || n >= 0x110000 then None else Some((n as char, 4))
    else None
  }

  function DecodeUtf8(bytes: seq<Byte>): Option<string> {
    if bytes == [] then Some("")
    else
      match DecodeChar(bytes)
      case None => None
      case Some((c, used)) =>
        match DecodeUtf8(bytes[used..])
        case None => None
        case Some(rest) => Some([c] + rest)
  }

  lemma Digits64(n: nat)
    ensures n == n / 64 * 64 + n % 64
  {
  }

  lemma DecodeShortChar(c: char, rest: seq<Byte>)
    requires c as int < 0x800
    ensures DecodeChar(EncodeChar(c) + rest) == Some((c, |EncodeChar(c)|))
  {
    Digits64(c as int);
  }

  lemma DecodeThreeByteChar(c: char, rest: seq<Byte>)
    requires 0x800 <= c as int < 0x10000
    ensures DecodeChar(EncodeChar(c) + rest) == Some((c, |EncodeChar(c)|))
  {
    var n := c as int;
    Digits64(n);
    Digits64(n / 64);
    Digits64(n / 64 / 64);
    var bytes := EncodeChar(c) + rest;
    assert bytes[0] == 0xE0 + n / 64 / 64 && bytes[1] == 0x80 + n / 64 % 64 && bytes[2] == 0x80 + n % 64;
    assert IsContinuation(bytes[1]) && IsContinuation(bytes[2]);
    assert bytes[0] - 0xE0 == n / 64 / 64 && Low(bytes[1]) == n / 64 % 64 && Low(bytes[2]) == n % 64;
  }

  lemma DecodeFourByteChar(c: char, rest: seq<Byte>)
    requires 0x10000 <= c as int
    ensures DecodeChar(EncodeChar(c) + rest) == Some((c, |EncodeChar(c)|))
  {
    var n := c as int;
    Digits64(n);
    Digits64(n / 64);
    Digits64(n / 64 / 64);
    var bytes := EncodeChar(c) + rest;
    assert bytes[0] == 0xF0 + n / 64 / 64 / 64 && bytes[1] == 0x80 + n / 64 / 64 % 64;
    assert bytes[2] == 0x80 + n / 64 % 64 && bytes[3] == 0x80 + n % 64;
    assert IsContinuation(bytes[1]) && IsContinuation(bytes[2]) && IsContinuation(bytes[3]);
    assert bytes[0] - 0xF0 == n / 64 / 64 / 64 && Low(bytes[1]) == n / 64 / 64 % 64;
    assert Low(bytes[2]) == n / 64 % 64 && Low(bytes[3]) == n % 64;
  }

  lemma DecodeEncodedChar(c: char, rest: seq<Byte>)
    ensures DecodeChar(EncodeChar(c) + rest) == Some((c, |EncodeChar(c)|))
  {
    var n := c as int;
    if n < 0x800 {
      DecodeShortChar(c, rest);
    } else if n < 0x10000 {
      DecodeThreeByteChar(c, rest);
    } else {
      DecodeFourByteChar(c, rest);
    }
  }

  /** Decoding undoes encoding on every text. */
  lemma {:induction false} Utf8RoundTrip(s: string)
    ensures DecodeUtf8(EncodeUtf8(s)) == Some(s)
  {
    if s != [] {
      var bytes := EncodeUtf8(s);
      DecodeEncodedChar(s[0], EncodeUtf8(s[1..]));
      assert bytes[|EncodeChar(s[0])|..] == EncodeUtf8(s[1..]);
      Utf8RoundTrip(s[1..]);
      assert s == [s[0]] + s[1..];
    }
  }

  // ------------------------------------------------------------------
  // base64.urlsafe_b64encode and base64.urlsafe_b64decode
  // ------------------------------------------------------------------

  type Sextet = n: int | 0 <= n < 64

  function Symbol(n: Sextet): (c: char)
    ensures c != '='
  {
    if n < 26 then 'A' + n as char
    else if n < 52 then 'a' + (n - 26) as char
    else if n < 62 then '0' + (n - 52) as char
    else if n == 62 then '-'
    else '_'
  }

  /** The value of an alphabet character. The decoder maps '-' and '_' to '+' and '/'
      first, so it accepts either spelling; None is a character outside the alphabet. */
  function SymbolValue(c: char): Option<Sextet> {
    if 'A' <= c <= 'Z' then Some(c as int - 'A' as int)
    else if 'a' <= c <= 'z' then Some(c as int - 'a' as int + 26)
    else if '0' <= c <= '9' then Some(c as int - '0' as int + 52)
    else if c == '-' || c == '+' then Some(62)
    else if c == '_' || c == '/' then Some(63)
    else None
  }

  lemma SymbolRoundTrip(n: Sextet)
    ensures SymbolValue(Symbol(n)) == Some(n)
  {
  }

  lemma UpperCaseSymbols(n: nat)
    requires n < 26
    ensures "ABCDEFGHIJKLMNOPQRSTUVWXYZ"[n] == Symbol(n)
  {
  }

  lemma LowerCaseSymbols(n: nat)
    requires n < 26
    ensures "abcdefghijklmnopqrstuvwxyz"[n] == Symbol(26 + n)
  {
  }

  lemma DigitSymbols(n: nat)
    requires n < 10
    ensures "0123456789"[n] == Symbol(52 + n)
  {
  }

  /** The URL-safe alphabet of section 5 of RFC 4648. */
  lemma AlphabetMeaning(n: Sextet, upper: string, lower: string, digits: string)
    requires upper == "ABCDEFGHIJKLMNOPQRSTUVWXYZ" && lower == "abcdefghijklmnopqrstuvwxyz" && digits == "0123456789"
    ensures Symbol(n) == (upper + lower + digits + "-_")[n]
  {
    if n < 26 {
      UpperCaseSymbols(n);
    } else if n < 52 {
      LowerCaseSymbols(n - 26);
    } else if n < 62 {
      DigitSymbols(n - 52);
    }
  }

  /** The number that four symbols spell. */
  function Spelled(s: string): Option<nat>
    requires |s| == 4
  {
    var a, b, c, d := SymbolValue(s[0]), SymbolValue(s[1]), SymbolValue(s[2]), SymbolValue(s[3]);
    if a.None? || b.None? || c.None? || d.None? then None
    else Some(((a.value * 64 + b.value) * 64 + c.value) * 64 + d.value)
  }

  predicate IsBase64Char(c: char) {
    c == '=' || c == '-' || c == '_' || 'A' <= c <= 'Z' || 'a' <= c <= 'z' || '0' <= c <= '9'
  }

  function EncodeBase64(bytes: seq<Byte>): (s: string)
    ensures forall i :: 0 <= i < |s| ==> IsBase64Char(s[i])
  {
    if |bytes| == 0 then ""
    else if |bytes| == 1 then
      [Symbol(bytes[0] / 4), Symbol(bytes[0] % 4 * 16), '=', '=']
    else if |bytes| == 2 then
      [Symbol(bytes[0] / 4), Symbol(bytes[0] % 4 * 16 + bytes[1] / 16), Symbol(bytes[1] % 16 * 4), '=']
    else
      [Symbol(bytes[0] / 4), Symbol(bytes[0] % 4 * 16 + bytes[1] / 16),
       Symbol(bytes[1] % 16 * 4 + bytes[2] / 64), Symbol(bytes[2] % 64)]
      + EncodeBase64(bytes[3..])
  }

  /** Each group of four symbols spells the 24 bits of its three bytes, the first byte first, as
      section 4 of RFC 4648 has it. */
  lemma GroupMeaning(x: Byte, y: Byte, z: Byte, rest: seq<Byte>)
    ensures var s := EncodeBase64([x, y, z] + rest);
            |s| >= 4 && Spelled(s[..4]) == Some((x * 256 + y) * 256 + z) && s[4..] == EncodeBase64(rest)
  {
    var bytes := [x, y, z] + rest;
    assert bytes[3..] == rest;
    SymbolRoundTrip(x / 4);
    SymbolRoundTrip(x % 4 * 16 + y / 16);
    SymbolRoundTrip(y % 16 * 4 + z / 64);
    SymbolRoundTrip(z % 64);
  }

  /** The decoder's scan: `quad` characters of the current group of four have been read,
      `left` holds the bits of the last one not yet emitted, `pads` counts the padding
      characters since the last alphabet character. Characters outside the alphabet are
      skipped, and a complete padding ends the scan; None is binascii.Error. */
  function ScanBase64(s: string, quad: nat, left: nat, pads: nat, out: seq<Byte>): Option<seq<Byte>>
    requires quad < 4
    requires left < (if quad == 1 then 64 else if quad == 2 then 16 else if quad == 3 then 4 else 1)
  {
    if s == [] then
      if quad == 0 then Some(out) else None
    else if s[0] == '=' then
      if quad >= 2 && quad + pads + 1 >= 4 then Some(out)
      else ScanBase64(s[1..], quad, left, if quad >= 2 then pads + 1 else pads, out)
    else
      match SymbolValue(s[0])
      case None => ScanBase64(s[1..], quad, left, pads, out)
      case Some(n) =>
        if quad == 0 then ScanBase64(s[1..], 1, n, 0, out)
        else if quad == 1 then ScanBase64(s[1..], 2, n % 16, 0, out + [left * 4 + n / 16])
        else if quad == 2 then ScanBase64(s[1..], 3, n % 4, 0, out + [left * 16 + n / 4])
        else ScanBase64(s[1..], 0, 0, 0, out + [left * 64 + n])
  }

  function DecodeBase64(s: string): Option<seq<Byte>> {
    ScanBase64(s, 0, 0, 0, [])
  }

  lemma ScanSymbol(s: string, quad: nat, left: nat, pads: nat, out: seq<Byte>, n: Sextet)
    requires quad < 4
    requires left < (if quad == 1 then 64 else if quad == 2 then 16 else if quad == 3 then 4 else 1)
    requires s != [] && s[0] == Symbol(n)
    ensures ScanBase64(s, quad, left, pads, out) ==
            if quad == 0 then ScanBase64(s[1..], 1, n, 0, out)
            else if quad == 1 then ScanBase64(s[1..], 2, n % 16, 0, out + [left * 4 + n / 16])
            else if quad == 2 then ScanBase64(s[1..], 3, n % 4, 0, out + [left * 16 + n / 4])
            else ScanBase64(s[1..], 0, 0, 0, out + [left * 64 + n])
  {
    SymbolRoundTrip(n);
  }

  lemma ScanGroup(a: Sextet, b: Sextet, c: Sextet, d: Sextet, rest: string, out: seq<Byte>)
    ensures ScanBase64([Symbol(a), Symbol(b), Symbol(c), Symbol(d)] + rest, 0, 0, 0, out)
         == ScanBase64(rest, 0, 0, 0, out + [a * 4 + b / 16, b % 16 * 16 + c / 4, c % 4 * 64 + d])
  {
    var s := [Symbol(a), Symbol(b), Symbol(c), Symbol(d)] + rest;
    ScanSymbol(s, 0, 0, 0, out, a);
    ScanSymbol(s[1..], 1, a, 0, out, b);
    ScanSymbol(s[1..][1..], 2, b % 16, 0, out + [a * 4 + b / 16], c);
    ScanSymbol(s[1..][1..][1..], 3, c % 4, 0, out + [a * 4 + b / 16] + [b % 16 * 16 + c / 4], d);
    assert s[1..][1..][1..][1..] == rest;
    assert out + [a * 4 + b / 16] + [b % 16 * 16 + c / 4] + [c % 4 * 64 + d]
        == out + [a * 4 + b / 16, b % 16 * 16 + c / 4, c % 4 * 64 + d];
  }

  lemma ScanTwoPadded(a: Sextet, b: Sextet, out: seq<Byte>)
    ensures ScanBase64([Symbol(a), Symbol(b), '=', '='], 0, 0, 0, out) == Some(out + [a * 4 + b / 16])
  {
    var s := [Symbol(a), Symbol(b), '=', '='];
    ScanSymbol(s, 0, 0, 0, out, a);
    ScanSymbol(s[1..], 1, a, 0, out, b);
    assert s[1..][1..] == "==" && "=="[1..] == "=";
  }

  lemma ScanThreePadded(a: Sextet, b: Sextet, c: Sextet, out: seq<Byte>)
    ensures ScanBase64([Symbol(a), Symbol(b), Symbol(c), '='], 0, 0, 0, out)
         == Some(out + [a * 4 + b / 16, b % 16 * 16 + c / 4])
  {
    var s := [Symbol(a), Symbol(b), Symbol(c), '='];
    ScanSymbol(s, 0, 0, 0, out, a);
    ScanSymbol(s[1..], 1, a, 0, out, b);
    ScanSymbol(s[1..][1..], 2, b % 16, 0, out + [a * 4 + b / 16], c);
    assert s[1..][1..][1..] == "=";
    assert out + [a * 4 + b / 16] + [b % 16 * 16 + c / 4] == out + [a * 4 + b / 16, b % 16 * 16 + c / 4];
  }

  lemma SextetsOfThree(x: Byte, y: Byte, z: Byte)
    ensures x / 4 * 4 + (x % 4 * 16 + y / 16) / 16 == x
    ensures (x % 4 * 16 + y / 16) % 16 * 16 + (y % 16 * 4 + z / 64) / 4 == y
    ensures (y % 16 * 4 + z / 64) % 4 * 64 + z % 64 == z
  {
  }

  lemma ScanOne(x: Byte, out: seq<Byte>)
    ensures ScanBase64(EncodeBase64([x]), 0, 0, 0, out) == Some(out + [x])
  {
    ScanTwoPadded(x / 4, x % 4 * 16, out);
  }

  lemma ScanTwo(x: Byte, y: Byte, out: seq<Byte>)
    ensures ScanBase64(EncodeBase64([x, y]), 0, 0, 0, out) == Some(out + [x, y])
  {
    ScanThreePadded(x / 4, x % 4 * 16 + y / 16, y % 16 * 4, out);
    SextetsOfThree(x, y, 0);
  }

  lemma ScanStep(bytes: seq<Byte>, out: seq<Byte>)
    requires |bytes| >= 3
    ensures ScanBase64(EncodeBase64(bytes), 0, 0, 0, out)
         == ScanBase64(EncodeBase64(bytes[3..]), 0, 0, 0, out + bytes[..3])
  {
    var x, y, z := bytes[0], bytes[1], bytes[2];
    ScanGroup(x / 4, x % 4 * 16 + y / 16, y % 16 * 4 + z / 64, z % 64, EncodeBase64(bytes[3..]), out);
    SextetsOfThree(x, y, z);
    assert bytes[..3] == [x, y, z];
  }

  lemma {:induction false} ScanEncoded(bytes: seq<Byte>, out: seq<Byte>)
    ensures ScanBase64(EncodeBase64(bytes), 0, 0, 0, out) == Some(out + bytes)
  {
    if |bytes| == 0 {
      assert out + bytes == out;
    } else if |bytes| == 1 {
      ScanOne(bytes[0], out);
      assert bytes == [bytes[0]];
    } else if |bytes| == 2 {
      ScanTwo(bytes[0], bytes[1], out);
      assert bytes == [bytes[0], bytes[1]];
    } else {
      ScanStep(bytes, out);
      ScanEncoded(bytes[3..], out + bytes[..3]);
      assert out + bytes[..3] + bytes[3..] == out + bytes;
    }
  }

  /** Decoding undoes encoding on every byte string. */
  lemma Base64RoundTrip(bytes: seq<Byte>)
    ensures DecodeBase64(EncodeBase64(bytes)) == Some(bytes)
  {
    ScanEncoded(bytes, []);
    assert [] + bytes == bytes;
  }
}
