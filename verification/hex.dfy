/** Hexadecimal text: Go's `%x` verb on a byte slice, `encoding/hex`
    decoding, and the Mongo driver's ObjectID, a 12-byte value written as 24
    hex digits. */
module Hex {
  import opened Results

  newtype byte = x: int | 0 <= x < 256

  predicate IsHexChar(c: char) {
    '0' <= c <= '9' || 'a' <= c <= 'f' || 'A' <= c <= 'F'
  }

  predicate IsLowerHexChar(c: char) {
    '0' <= c <= '9' || 'a' <= c <= 'f'
  }

  /** The lower-case digit `%x` writes for a nibble. */
  function NibbleChar(n: int): (c: char)
    requires 0 <= n < 16
    ensures IsLowerHexChar(c)
  {
    if n < 10 then (('0' as int) + n) as char else (('a' as int) + n - 10) as char
  }

  /** The value of a hex digit of either case. */
  function NibbleValue(c: char): (n: int)
    requires IsHexChar(c)
    ensures 0 <= n < 16
  {
    if '0' <= c <= '9' then (c as int) - ('0' as int)
    else if 'a' <= c <= 'f' then (c as int) - ('a' as int) + 10
    else (c as int) - ('A' as int) + 10
  }

  lemma NibbleRoundTrip(n: int)
    requires 0 <= n < 16
    ensures NibbleValue(NibbleChar(n)) == n
  {
  }

  /** `%x` of a byte slice: two lower-case digits per byte, high nibble first. */
  function HexEncode(bytes: seq<byte>): (r: string)
    ensures |r| == 2 * |bytes|
    ensures forall i :: 0 <= i < |r| ==> IsLowerHexChar(r[i])
  {
    if |bytes| == 0 then ""
    else
      var b := bytes[0] as int;
      [NibbleChar(b / 16), NibbleChar(b % 16)] + HexEncode(bytes[1..])
  }

  /** The two ways hex text fails to decode. The decoder reads the UTF-8
      bytes of a Go string, so a bad character is reported by its first
      byte. */
  datatype HexError = ErrLength | InvalidByte(b: byte)

  /** How many bytes UTF-8 spends on a character. */
  function Utf8Width(c: char): (n: int)
    ensures 1 <= n <= 4
    ensures n == 1 <==> (c as int) < 0x80
  {
    if (c as int) < 0x80 then 1
    else if (c as int) < 0x800 then 2
    else if (c as int) < 0x1_0000 then 3
    else 4
  }

  /** The first UTF-8 byte of a character: the character itself when it is
      ASCII, otherwise the width marker with its top bits. */
  function Utf8LeadByte(c: char): (b: byte)
    ensures (c as int) < 0x80 ==> b as int == c as int
    ensures (c as int) >= 0x80 ==> b >= 0xC0
  {
    var n := c as int;
    if n < 0x80 then n as byte
    else if n < 0x800 then (0xC0 + n / 0x40) as byte
    else if n < 0x1_0000 then (0xE0 + n / 0x1000) as byte
    else (0xF0 + n / 0x4_0000) as byte
  }

  /** Go's `len` of a string: the length of its UTF-8 encoding. */
  function Utf8Len(s: string): (n: nat)
    ensures n >= |s|
  {
    if |s| == 0 then 0 else Utf8Width(s[0]) + Utf8Len(s[1..])
  }

  /** A string has as many bytes as characters exactly when it is ASCII. */
  lemma {:induction false} Utf8LenAscii(s: string)
    ensures Utf8Len(s) == |s| <==> forall i :: 0 <= i < |s| ==> (s[i] as int) < 0x80
    decreases |s|
  {
    if |s| > 0 {
      Utf8LenAscii(s[1..]);
      assert forall i :: 1 <= i < |s| ==> s[i] == s[1..][i - 1];
    }
  }

  /** encoding/hex decoding: pairs of digits of either case. A bad digit is
      reported, by its first byte, before an odd length, as in the Go
      decoder. */
  function HexDecode(s: string): (r: Result<seq<byte>, HexError>)
    ensures r.Ok? <==> |s| % 2 == 0 && forall i :: 0 <= i < |s| ==> IsHexChar(s[i])
    ensures r.Ok? ==> 2 * |r.value| == |s|
    decreases |s|
  {
    if |s| == 0 then Ok([])
    else if !IsHexChar(s[0]) then Err(InvalidByte(Utf8LeadByte(s[0])))
    else if |s| == 1 then Err(ErrLength)
    else if !IsHexChar(s[1]) then Err(InvalidByte(Utf8LeadByte(s[1])))
    else
      match HexDecode(s[2..])
      case Err(e) =>
        assert !(forall i :: 0 <= i < |s| ==> IsHexChar(s[i])) || |s| % 2 != 0 by {
          if |s| % 2 == 0 && forall i :: 0 <= i < |s| ==> IsHexChar(s[i]) {
            assert forall i :: 0 <= i < |s[2..]| ==> s[2..][i] == s[i + 2];
          }
        }
        Err(e)
      case Ok(rest) =>
        assert forall i :: 2 <= i < |s| ==> s[i] == s[2..][i - 2];
        Ok([(NibbleValue(s[0]) * 16 + NibbleValue(s[1])) as byte] + rest)
  }

  /** Decoding what `%x` wrote gives back the bytes. */
  lemma {:induction false} HexRoundTrip(bytes: seq<byte>)
    ensures HexDecode(HexEncode(bytes)) == Ok(bytes)
    decreases |bytes|
  {
    if |bytes| > 0 {
      var b := bytes[0] as int;
      var s := HexEncode(bytes);
      assert s[2..] == HexEncode(bytes[1..]);
      HexRoundTrip(bytes[1..]);
      NibbleRoundTrip(b / 16);
      NibbleRoundTrip(b % 16);
      assert bytes == [bytes[0]] + bytes[1..];
    }
  }

  /** A Mongo ObjectID: twelve bytes. */
  datatype ObjectId = ObjectId(bytes: seq<byte>)

  predicate ValidObjectId(id: ObjectId) {
    |id.bytes| == 12
  }

  /** ObjectID.Hex: 24 lower-case hex digits. */
  function ObjectIdHex(id: ObjectId): (r: string)
    ensures ValidObjectId(id) ==> |r| == 24
  {
    HexEncode(id.bytes)
  }

  /** The strings ObjectIDFromHex accepts: 24 hex digits of either case. */
  predicate IsObjectIdHex(s: string) {
    |s| == 24 && forall i :: 0 <= i < |s| ==> IsHexChar(s[i])
  }

  /** primitive.ObjectIDFromHex: a string whose UTF-8 length is not 24 bytes
      is ErrLength (the driver's ErrInvalidHex), otherwise the decoder's
      verdict. */
  function ObjectIdFromHex(s: string): (r: Result<ObjectId, HexError>)
    ensures r.Ok? <==> IsObjectIdHex(s)
    ensures r.Ok? ==> ValidObjectId(r.value)
    ensures Utf8Len(s) != 24 ==> r == Err(ErrLength)
    ensures Utf8Len(s) == 24 && HexDecode(s).Err? ==> r == Err(HexDecode(s).error)
  {
    if Utf8Len(s) != 24 then
      assert !IsObjectIdHex(s) by { if IsObjectIdHex(s) { Utf8LenAscii(s); } }
      Err(ErrLength)
    else
      match HexDecode(s)
      case Ok(bytes) =>
        assert |s| == 24 by { Utf8LenAscii(s); }
        Ok(ObjectId(bytes))
      case Err(e) => Err(e)
  }

  /** The UTF-8 length of a concatenation is the sum of the lengths. */
  lemma {:induction false} Utf8LenAppend(a: string, b: string)
    ensures Utf8Len(a + b) == Utf8Len(a) + Utf8Len(b)
    decreases |a|
  {
    if |a| == 0 {
      assert a + b == b;
    } else {
      var ab := a + b;
      assert ab[0] == a[0] && ab[1..] == a[1..] + b;
      Utf8LenAppend(a[1..], b);
    }
  }

  /** A string of characters of one width `w` has `w` bytes per character. */
  lemma {:induction false} Utf8LenUniform(s: string, w: int)
    requires forall i :: 0 <= i < |s| ==> Utf8Width(s[i]) == w
    ensures Utf8Len(s) == w * |s|
    decreases |s|
  {
    if |s| > 0 {
      assert forall i :: 0 <= i < |s[1..]| ==> s[1..][i] == s[i + 1];
      Utf8LenUniform(s[1..], w);
    }
  }

  /** Twelve Cyrillic letters are 24 bytes: they pass the length test and
      the decoder rejects the first byte of the first letter. */
  lemma NonAsciiPassesLengthTest()
    ensures Utf8Len("ЖЖЖЖЖЖЖЖЖЖЖЖ") == 24
    ensures ObjectIdFromHex("ЖЖЖЖЖЖЖЖЖЖЖЖ") == Err(InvalidByte(0xD0))
  {
    TwelveLettersLength();
    assert HexDecode("ЖЖЖЖЖЖЖЖЖЖЖЖ") == Err(InvalidByte(0xD0)) by {
      var s := "ЖЖЖЖЖЖЖЖЖЖЖЖ";
      assert !IsHexChar(s[0]) && Utf8LeadByte(s[0]) == 0xD0;
    }
  }

  lemma TwelveLettersLength()
    ensures Utf8Len("ЖЖЖЖЖЖЖЖЖЖЖЖ") == 24
  {
    Utf8LenUniform("ЖЖЖЖЖЖЖЖЖЖЖЖ", 2);
  }

  /** Twenty-three hex digits and one non-ASCII character are 24 characters
      but at least 25 bytes: the length test rejects them. */
  lemma DigitsThenNonAsciiFailLengthTest(digits: string, c: char)
    requires |digits| == 23 && forall i :: 0 <= i < 23 ==> IsHexChar(digits[i])
    requires (c as int) >= 0x80
    ensures |digits + [c]| == 24 && Utf8Len(digits + [c]) >= 25
    ensures ObjectIdFromHex(digits + [c]) == Err(ErrLength)
  {
    Utf8LenUniform(digits, 1);
    Utf8LenAppend(digits, [c]);
    assert Utf8Len([c]) == Utf8Width(c) + Utf8Len([]);
  }

  /** `%x` of a concatenation is the concatenation of the two texts. */
  lemma {:induction false} HexEncodeAppend(a: seq<byte>, b: seq<byte>)
    ensures HexEncode(a + b) == HexEncode(a) + HexEncode(b)
    decreases |a|
  {
    if |a| == 0 {
      assert a + b == b;
    } else {
      var ab := a + b;
      assert ab[0] == a[0] && ab[1..] == a[1..] + b;
      HexEncodeAppend(a[1..], b);
    }
  }

  /** `n` zero bytes. */
  function ZeroBytes(n: nat): (r: seq<byte>)
    ensures |r| == n && forall i :: 0 <= i < n ==> r[i] == 0
  {
    seq(n, _ => 0 as byte)
  }

  /** `n` zero digits. */
  function ZeroDigits(n: nat): (r: string)
    ensures |r| == n && forall i :: 0 <= i < n ==> r[i] == '0'
  {
    seq(n, _ => '0')
  }

  /** `%x` of n zero bytes is 2n zero digits. */
  lemma {:induction false} HexOfZeros(n: nat)
    ensures HexEncode(ZeroBytes(n)) == ZeroDigits(2 * n)
  {
    if n > 0 {
      var z := ZeroBytes(n);
      assert z[1..] == ZeroBytes(n - 1);
      HexOfZeros(n - 1);
      assert HexEncode(z) == [NibbleChar(0), NibbleChar(0)] + HexEncode(z[1..]);
    }
  }

  /** Every ObjectID is parsed back from its hex form. */
  lemma ObjectIdHexRoundTrip(id: ObjectId)
    requires ValidObjectId(id)
    ensures ObjectIdFromHex(ObjectIdHex(id)) == Ok(id)
  {
    HexRoundTrip(id.bytes);
  }
}
