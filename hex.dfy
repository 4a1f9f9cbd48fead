/** Lowercase hexadecimal encoding of bytes, as the profile form writes a
    SHA-256 digest (`b.toString(16).padStart(2, "0")`, joined) and as the
    upload authorizer names a new object (`randomBytes(32).toString("hex")`). */
module HexCodec {
  import opened Common

  newtype byte = x: int | 0 <= x < 256

  predicate IsLowerHexChar(c: char) {
    '0' <= c <= '9' || 'a' <= c <= 'f'
  }

  predicate IsLowerHex(s: string) {
    forall i :: 0 <= i < |s| ==> IsLowerHexChar(s[i])
  }

  /** The value of a lowercase hex digit, or None for any other character. */
  function DigitValue(c: char): (r: Option<nat>)
    ensures r.Some? <==> IsLowerHexChar(c)
    ensures r.Some? ==> r.value < 16
  {
    if '0' <= c <= '9' then Some(c as int - '0' as int)
    else if 'a' <= c <= 'f' then Some(c as int - 'a' as int + 10)
    else None
  }

  /** The digit that `toString(16)` writes for a value below sixteen. */
  function HexDigit(d: nat): (c: char)
    requires d < 16
    ensures IsLowerHexChar(c)
    ensures DigitValue(c) == Some(d)
  {
    if d < 10 then ('0' as int + d) as char else ('a' as int + d - 10) as char
  }

  /** Every lowercase hex digit is written back by HexDigit from its value. */
  lemma HexDigitOfValue(c: char)
    requires IsLowerHexChar(c)
    ensures HexDigit(DigitValue(c).value) == c
  {
  }

  /** The number a lowercase hex numeral denotes, most significant digit first. */
  function HexValue(s: string): nat
    requires IsLowerHex(s)
  {
    if s == [] then 0 else HexValue(s[..|s| - 1]) * 16 + DigitValue(s[|s| - 1]).value
  }

  /** `n.toString(16)` for a non-negative integer: the shortest lowercase
      base-16 numeral of n, which is "0" for zero. */
  function ToRadix16(n: nat): (s: string)
    ensures 1 <= |s| && IsLowerHex(s)
    decreases n
  {
    if n < 16 then [HexDigit(n)] else ToRadix16(n / 16) + [HexDigit(n % 16)]
  }

  /** ToRadix16 writes the numeral of n, with no leading zero. */
  lemma {:induction false} ToRadix16Numeral(n: nat)
    ensures HexValue(ToRadix16(n)) == n
    ensures ToRadix16(n)[0] != '0' || ToRadix16(n) == "0"
    decreases n
  {
    if n >= 16 {
      ToRadix16Numeral(n / 16);
      var s := ToRadix16(n);
      assert s[..|s| - 1] == ToRadix16(n / 16);
    }
  }

  /** `s.padStart(width, fill)` for a one-character fill string: s, preceded by
      as many copies of fill as it takes to reach width characters. */
  function PadStart(s: string, width: nat, fill: char): (r: string)
    ensures |r| == if |s| < width then width else |s|
    ensures forall i :: 0 <= i < |r| ==> r[i] == if i < |r| - |s| then fill else s[i - (|r| - |s|)]
  {
    if |s| >= width then s else seq(width - |s|, _ => fill) + s
  }

  /** One byte as `b.toString(16).padStart(2, "0")`: always exactly two
      lowercase digits, the high nibble first, zero-padded. */
  function ByteToHex(b: byte): (r: string)
    ensures r == [HexDigit(b as nat / 16), HexDigit(b as nat % 16)]
  {
    var digits := ToRadix16(b as nat);
    if b < 16 then
      assert digits == [HexDigit(b as nat)];
      PadStart(digits, 2, '0')
    else
      assert digits == ToRadix16(b as nat / 16) + [HexDigit(b as nat % 16)];
      PadStart(digits, 2, '0')
  }

  /** The bytes mapped through ByteToHex and joined with "". */
  function HexEncode(bytes: seq<byte>): (s: string)
    ensures |s| == 2 * |bytes|
    ensures IsLowerHex(s)
  {
    if bytes == [] then [] else ByteToHex(bytes[0]) + HexEncode(bytes[1..])
  }

  /** Each byte occupies its own two characters of the encoding. */
  lemma {:induction false} HexEncodeAt(bytes: seq<byte>, i: nat)
    requires i < |bytes|
    ensures HexEncode(bytes)[2 * i..2 * i + 2] == ByteToHex(bytes[i])
  {
    var s := HexEncode(bytes);
    assert s == ByteToHex(bytes[0]) + HexEncode(bytes[1..]);
    if i > 0 {
      var t := HexEncode(bytes[1..]);
      HexEncodeAt(bytes[1..], i - 1);
      assert s[2..] == t;
      assert s[2 * i..2 * i + 2] == t[2 * i - 2..2 * i];
    }
  }

  /** Reads two lowercase digits per byte; fails on an odd length or on any
      character that is not a lowercase hex digit. */
  function HexDecode(s: string): (r: Option<seq<byte>>)
    ensures r.Some? <==> |s| % 2 == 0 && IsLowerHex(s)
    ensures r.Some? ==> 2 * |r.value| == |s|
  {
    if |s| == 0 then Some([])
    else if |s| == 1 then None
    else
      var hi, lo, rest := DigitValue(s[0]), DigitValue(s[1]), HexDecode(s[2..]);
      if hi.Some? && lo.Some? && rest.Some? then Some([(hi.value * 16 + lo.value) as byte] + rest.value)
      else None
  }

  /** Fixed-width padding makes the encoding decodable: decoding gives back the bytes. */
  lemma {:induction false} DecodeEncode(bytes: seq<byte>)
    ensures HexDecode(HexEncode(bytes)) == Some(bytes)
  {
    if bytes != [] {
      var s := HexEncode(bytes);
      var b := bytes[0] as nat;
      var hi, lo := b / 16, b % 16;
      assert hi * 16 + lo == b;
      assert s == [HexDigit(hi), HexDigit(lo)] + HexEncode(bytes[1..]);
      assert DigitValue(s[0]) == Some(hi) && DigitValue(s[1]) == Some(lo);
      assert s[2..] == HexEncode(bytes[1..]);
      DecodeEncode(bytes[1..]);
      assert bytes == [bytes[0]] + bytes[1..];
    }
  }

  /** Every string the decoder accepts is exactly the encoding of what it decodes to. */
  lemma {:induction false} EncodeDecode(s: string)
    requires HexDecode(s).Some?
    ensures HexEncode(HexDecode(s).value) == s
  {
    if |s| > 0 {
      var hi, lo := DigitValue(s[0]).value, DigitValue(s[1]).value;
      var rest := HexDecode(s[2..]).value;
      var b := (hi * 16 + lo) as byte;
      assert HexDecode(s).value == [b] + rest;
      assert ByteToHex(b) == [s[0], s[1]] by {
        assert b as nat / 16 == hi && b as nat % 16 == lo;
        HexDigitOfValue(s[0]);
        HexDigitOfValue(s[1]);
      }
      assert HexEncode([b] + rest) == ByteToHex(b) + HexEncode(rest) by {
        assert ([b] + rest)[1..] == rest;
      }
      EncodeDecode(s[2..]);
      assert s == [s[0], s[1]] + s[2..];
    }
  }

  /** Distinct byte strings have distinct encodings. */
  lemma HexEncodeInjective(a: seq<byte>, b: seq<byte>)
    requires HexEncode(a) == HexEncode(b)
    ensures a == b
  {
    DecodeEncode(a);
    DecodeEncode(b);
  }
}
