/** Digests and their text form: fmt's %x of a byte array, the lower-case base-16
    rendering the scanner uses as its lookup key. */
module Hex {
  import Text

  newtype byte = x: int | 0 <= x < 256

  /** A SHA-1 digest is 20 bytes. */
  const DigestLength: nat := 20

  type Digest = d: seq<byte> | |d| == DigestLength witness seq(20, _ => 0)

  /** The digest sha1sum returns when a file cannot be read: `[20]byte{}`. */
  function ZeroDigest(): Digest { seq(DigestLength, _ => 0) }

  predicate IsLowerHex(c: char) {
    '0' <= c <= '9' || 'a' <= c <= 'f'
  }

  predicate AllLowerHex(s: string) {
    forall i :: 0 <= i < |s| ==> IsLowerHex(s[i])
  }

  function HexByte(b: byte): (r: string)
    ensures |r| == 2 && AllLowerHex(r)
  {
    [Text.LowerHexDigit(b as int / 16), Text.LowerHexDigit(b as int % 16)]
  }

  /** fmt's %x of a byte array: two lower-case hexadecimal digits per byte, most
      significant nibble first. */
  function Hex(d: seq<byte>): (r: string)
    ensures |r| == 2 * |d|
    ensures AllLowerHex(r)
  {
    if d == [] then "" else HexByte(d[0]) + Hex(d[1..])
  }

  function DigitValue(c: char): (n: int)
    requires IsLowerHex(c)
    ensures 0 <= n < 16 && Text.LowerHexDigit(n) == c
  {
    if c <= '9' then c as int - '0' as int else c as int - 'a' as int + 10
  }

  /** Reads back a string of lower-case hexadecimal digit pairs. */
  function Unhex(s: string): (d: seq<byte>)
    requires |s| % 2 == 0 && AllLowerHex(s)
    ensures |d| == |s| / 2
  {
    if s == [] then []
    else [(DigitValue(s[0]) * 16 + DigitValue(s[1])) as byte] + Unhex(s[2..])
  }

  lemma DigitValueOf(n: int)
    requires 0 <= n < 16
    ensures DigitValue(Text.LowerHexDigit(n)) == n
  {
  }

  /** Rendering then reading back gives the digest again. */
  lemma {:induction false} UnhexHex(d: seq<byte>)
    ensures Unhex(Hex(d)) == d
  {
    if d != [] {
      var h := Hex(d);
      assert h[..2] == HexByte(d[0]) && h[2..] == Hex(d[1..]);
      DigitValueOf(d[0] as int / 16);
      DigitValueOf(d[0] as int % 16);
      UnhexHex(d[1..]);
    }
  }

  /** Reading then rendering gives the string again. */
  lemma {:induction false} HexUnhex(s: string)
    requires |s| % 2 == 0 && AllLowerHex(s)
    ensures Hex(Unhex(s)) == s
  {
    if s != [] {
      var hi, lo := DigitValue(s[0]), DigitValue(s[1]);
      var b := (hi * 16 + lo) as byte;
      ByteDigits(hi, lo);
      assert b as int / 16 == hi && b as int % 16 == lo;
      assert Text.LowerHexDigit(hi) == s[0] && Text.LowerHexDigit(lo) == s[1];
      assert HexByte(b) == [s[0], s[1]];
      var rest := Unhex(s[2..]);
      assert Unhex(s) == [b] + rest;
      assert ([b] + rest)[1..] == rest;
      HexUnhex(s[2..]);
      assert s == [s[0], s[1]] + s[2..];
    }
  }

  lemma ByteDigits(hi: int, lo: int)
    requires 0 <= hi < 16 && 0 <= lo < 16
    ensures (hi * 16 + lo) / 16 == hi && (hi * 16 + lo) % 16 == lo
  {
  }

  /** Two digests have the same key only when they are the same digest. */
  lemma HexInjective(d1: seq<byte>, d2: seq<byte>)
    requires Hex(d1) == Hex(d2)
    ensures d1 == d2
  {
    UnhexHex(d1);
    UnhexHex(d2);
  }

  /** The key of a digest made only of zero bytes is a run of '0' digits. */
  lemma {:induction false} HexOfZeros(n: nat)
    ensures Hex(seq(n, _ => 0 as byte)) == seq(2 * n, _ => '0')
  {
    if n > 0 {
      var z := seq(n, _ => 0 as byte);
      assert z[1..] == seq(n - 1, _ => 0 as byte);
      HexOfZeros(n - 1);
      assert Hex(z) == "00" + seq(2 * n - 2, _ => '0');
    }
  }
}
