/**
 * Hex rendering of digests: every byte becomes two lower-case hex digits,
 * high nibble first. The MD5 algorithm itself is not part of this model;
 * a digest is any 16 bytes.
 */
module Hash {

  type Byte = b: int | 0 <= b < 256

  /** An MD5 digest. */
  type Digest = d: seq<Byte> | |d| == 16 witness seq(16, _ => 0)

  const Digits: string := "0123456789abcdef"

  predicate IsHexDigit(c: char)
  {
    '0' <= c <= '9' || 'a' <= c <= 'f'
  }

  /** The character sprintf's "%x" writes for one nibble. */
  function HexDigit(n: int): (c: char)
    requires 0 <= n < 16
    ensures IsHexDigit(c)
    ensures n < 10 ==> c == '0' + n as char
    ensures n >= 10 ==> c == 'a' + (n - 10) as char
  {
    Digits[n]
  }

  /** The value of a hex digit, inverse of HexDigit; 0 for any other
   *  character. */
  function DigitValue(c: char): (n: int)
    ensures 0 <= n < 16
    ensures IsHexDigit(c) ==> HexDigit(n) == c
  {
    if '0' <= c <= '9' then (c - '0') as int else if 'a' <= c <= 'f' then (c - 'a') as int + 10 else 0
  }

  /** The text "%02x" prints for each byte in turn. */
  function HexOf(bytes: seq<Byte>): (s: string)
    ensures |s| == 2 * |bytes|
    ensures forall i :: 0 <= i < |s| ==> IsHexDigit(s[i])
  {
    if |bytes| == 0 then ""
    else [HexDigit(bytes[0] / 16), HexDigit(bytes[0] % 16)] + HexOf(bytes[1..])
  }

  /** Byte i is rendered at positions 2i and 2i+1, high nibble first. */
  lemma {:induction false} HexOfAt(bytes: seq<Byte>, i: nat)
    requires i < |bytes|
    ensures HexOf(bytes)[2 * i] == HexDigit(bytes[i] / 16) && HexOf(bytes)[2 * i + 1] == HexDigit(bytes[i] % 16)
  {
    if i > 0 {
      HexOfAt(bytes[1..], i - 1);
      var head := [HexDigit(bytes[0] / 16), HexDigit(bytes[0] % 16)];
      assert HexOf(bytes) == head + HexOf(bytes[1..]);
    }
  }

  /** Reads pairs of hex digits back into bytes (a last unpaired digit
   *  is ignored). */
  function FromHex(s: string): seq<Byte>
  {
    if |s| < 2 then []
    else [DigitValue(s[0]) * 16 + DigitValue(s[1])] + FromHex(s[2..])
  }

  /** A nibble's digit reads back as the nibble. */
  lemma DigitRoundTrip(n: int)
    requires 0 <= n < 16
    ensures DigitValue(HexDigit(n)) == n
  {
  }

  /** A byte's two digits read back as the byte. */
  lemma ByteRoundTrip(b: Byte)
    ensures DigitValue(HexDigit(b / 16)) * 16 + DigitValue(HexDigit(b % 16)) == b as int
  {
    DigitRoundTrip(b / 16);
    DigitRoundTrip(b % 16);
  }

  /** Reading two digits and more text reads their byte, then the rest. */
  lemma FromHexCons(hi: char, lo: char, t: string)
    ensures FromHex([hi, lo] + t) == [DigitValue(hi) * 16 + DigitValue(lo)] + FromHex(t)
  {
    var s := [hi, lo] + t;
    assert s[2..] == t;
  }

  /** The rendering is lossless: reading it back gives the bytes. */
  lemma {:induction false} FromHexOfHex(bytes: seq<Byte>)
    ensures FromHex(HexOf(bytes)) == bytes
  {
    if |bytes| > 0 {
      var b := bytes[0];
      var hi, lo, rest := HexDigit(b / 16), HexDigit(b % 16), HexOf(bytes[1..]);
      assert HexOf(bytes) == [hi, lo] + rest;
      FromHexCons(hi, lo, rest);
      FromHexOfHex(bytes[1..]);
      ByteRoundTrip(b);
      assert FromHex(HexOf(bytes)) == [b] + bytes[1..];
      assert bytes == [b] + bytes[1..];
    }
  }

  /** Rendering one more byte appends its two digits. */
  lemma {:induction false} HexOfAppend(bytes: seq<Byte>, b: Byte)
    ensures HexOf(bytes + [b]) == HexOf(bytes) + [HexDigit(b / 16), HexDigit(b % 16)]
  {
    if |bytes| > 0 {
      assert (bytes + [b])[1..] == bytes[1..] + [b];
      HexOfAppend(bytes[1..], b);
    }
  }

  /** Both MD5 wrappers render a 16-byte digest: always 32 hex digits. */
  lemma DigestRendering(d: Digest)
    ensures |HexOf(d)| == 32
    ensures forall i :: 0 <= i < 32 ==> IsHexDigit(HexOf(d)[i])
  {
  }

  /**
   * boincHashConvert2Hex: for each byte, sprintf writes its two digits
   * and a terminator, which the next byte's digits overwrite. With no
   * bytes nothing is written at all.
   */
  method Convert2Hex(buff: seq<Byte>, len: nat, hex: array<char>)
    requires len <= |buff| && 2 * len + 1 <= hex.Length
    modifies hex
    ensures hex[..2 * len] == HexOf(buff[..len])
    ensures len > 0 ==> hex[2 * len] == '\0'
    ensures len == 0 ==> hex[..] == old(hex[..])
    ensures forall k :: 2 * len < k < hex.Length ==> hex[k] == old(hex[k])
  {
    var i := 0;
    while i < len
      invariant i <= len
      invariant hex[..2 * i] == HexOf(buff[..i])
      invariant i > 0 ==> hex[2 * i] == '\0'
      invariant forall k :: 2 * i < k < hex.Length ==> hex[k] == old(hex[k])
      invariant i == 0 ==> hex[..] == old(hex[..])
    {
      hex[2 * i] := HexDigit(buff[i] / 16);
      hex[2 * i + 1] := HexDigit(buff[i] % 16);
      hex[2 * i + 2] := '\0';
      HexOfAppend(buff[..i], buff[i]);
      assert buff[..i + 1] == buff[..i] + [buff[i]];
      assert hex[..2 * (i + 1)] == hex[..2 * i] + [hex[2 * i], hex[2 * i + 1]];
      i := i + 1;
    }
  }
}
