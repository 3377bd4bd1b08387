/**
 * Python's `bytes.hex()`: every byte becomes two lower-case hexadecimal digits, high nibble first.
 * It names a signing session (the hex of sixteen random bytes) and renders the document digest.
 */
module HexCodec {

  type byte = b: int | 0 <= b < 0x100

  const Digits: string := "0123456789abcdef"

  predicate IsHexDigit(c: char)
  {
    c in Digits
  }

  /** A text made only of lower-case hexadecimal digits. */
  predicate IsLowerHex(s: string)
  {
    forall i :: 0 <= i < |s| ==> IsHexDigit(s[i])
  }

  function HexByte(b: byte): (h: string)
    ensures |h| == 2 && IsLowerHex(h)
  {
    [Digits[b / 16], Digits[b % 16]]
  }

  /** `bytes.hex()`. */
  function Hex(bytes: seq<byte>): (h: string)
    ensures |h| == 2 * |bytes|
    ensures IsLowerHex(h)
  {
    if bytes == [] then "" else HexByte(bytes[0]) + Hex(bytes[1..])
  }

  /** The value of one hexadecimal digit, its position in `Digits` (0 for any other character). */
  function DigitValue(c: char): (v: nat)
    ensures v < 16
    ensures IsHexDigit(c) ==> Digits[v] == c
  {
    if '0' <= c <= '9' then c as int - '0' as int
    else if 'a' <= c <= 'f' then c as int - 'a' as int + 10
    else 0
  }

  /** `bytes.fromhex(h)` on the lower-case texts `Hex` produces: one byte per pair of digits. */
  function UnHex(h: string): (bytes: seq<byte>)
    ensures |bytes| == |h| / 2
  {
    if |h| < 2 then [] else [ByteOfDigits(h[0], h[1])] + UnHex(h[2..])
  }

  /** The byte whose high and low nibbles are the values of two digits. */
  function ByteOfDigits(hi: char, lo: char): byte
  {
    DigitValue(hi) * 16 + DigitValue(lo)
  }

  lemma DigitValueOfDigit(v: nat)
    requires v < 16
    ensures DigitValue(Digits[v]) == v
  {
  }

  /** Reading back the hex of a byte string gives the byte string: `bytes.fromhex(b.hex()) == b`. */
  lemma {:induction false} UnHexHex(bytes: seq<byte>)
    ensures UnHex(Hex(bytes)) == bytes
  {
    if bytes != [] {
      var pair := HexByte(bytes[0]);
      var tail := Hex(bytes[1..]);
      assert Hex(bytes) == pair + tail;
      UnHexCons(pair, tail);
      ReadBackByte(bytes[0]);
      UnHexHex(bytes[1..]);
      calc {
        UnHex(Hex(bytes));
        [ByteOfDigits(pair[0], pair[1])] + UnHex(tail);
        [bytes[0]] + bytes[1..];
      }
    }
  }

  lemma UnHexCons(pair: string, tail: string)
    requires |pair| == 2
    ensures UnHex(pair + tail) == [ByteOfDigits(pair[0], pair[1])] + UnHex(tail)
  {
    var h := pair + tail;
    assert h[0] == pair[0] && h[1] == pair[1] && h[2..] == tail;
  }

  lemma ReadBackByte(b: byte)
    ensures ByteOfDigits(HexByte(b)[0], HexByte(b)[1]) == b
  {
    DigitValueOfDigit(b / 16);
    DigitValueOfDigit(b % 16);
  }

  /** Distinct byte strings have distinct hex renderings, so distinct random draws give distinct ids. */
  lemma HexInjective(a: seq<byte>, b: seq<byte>)
    requires Hex(a) == Hex(b)
    ensures a == b
  {
    UnHexHex(a);
    UnHexHex(b);
  }
}
