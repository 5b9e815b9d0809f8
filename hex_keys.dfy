/**
 * Transaction hashes are raw bytes; the relay stores and compares them as the
 * text that `HexBytes.hex()` produces: "0x" followed by two lower-case
 * hexadecimal digits per byte. This module defines that text and proves that
 * distinct hashes never share it, so a guard on the text is a guard on the hash.
 */
module HexKeys {

  /** One byte of a hash. */
  type Byte = b: int | 0 <= b < 256

  /** The lower-case hexadecimal digit for a value below sixteen. */
  function HexDigit(d: int): (c: char)
    requires 0 <= d < 16
    ensures '0' <= c <= '9' || 'a' <= c <= 'f'
    ensures (c <= '9') == (d < 10)
  {
    if d < 10 then ('0' as int + d) as char else ('a' as int + d - 10) as char
  }

  /** The two digits of one byte, high nibble first. */
  function ByteHex(b: Byte): string
  {
    [HexDigit(b / 16), HexDigit(b % 16)]
  }

  /** Hexadecimal text of a byte string, two digits per byte, in byte order. */
  function Hex(bytes: seq<Byte>): (s: string)
    ensures |s| == 2 * |bytes|
    ensures forall k :: 0 <= k < |s| ==> '0' <= s[k] <= '9' || 'a' <= s[k] <= 'f'
  {
    if bytes == [] then [] else ByteHex(bytes[0]) + Hex(bytes[1..])
  }

  /** The text a hash is stored and looked up under. */
  function Key(bytes: seq<Byte>): (s: string)
    ensures |s| == 2 + 2 * |bytes|
    ensures s[..2] == "0x" && s[2..] == Hex(bytes)
  {
    "0x" + Hex(bytes)
  }

  lemma ByteHexInjective(a: Byte, b: Byte)
    requires ByteHex(a) == ByteHex(b)
    ensures a == b
  {
    assert HexDigit(a / 16) == HexDigit(b / 16);
    assert HexDigit(a % 16) == HexDigit(b % 16);
    assert a / 16 == b / 16 && a % 16 == b % 16;
  }

  /** Distinct byte strings have distinct hexadecimal text. */
  lemma {:induction false} HexInjective(a: seq<Byte>, b: seq<Byte>)
    requires Hex(a) == Hex(b)
    ensures a == b
  {
    if a != [] {
      assert |b| == |a|;
      assert Hex(a)[..2] == ByteHex(a[0]) && Hex(b)[..2] == ByteHex(b[0]);
      ByteHexInjective(a[0], b[0]);
      assert Hex(a)[2..] == Hex(a[1..]) && Hex(b)[2..] == Hex(b[1..]);
      HexInjective(a[1..], b[1..]);
      assert a == [a[0]] + a[1..] && b == [b[0]] + b[1..];
    }
  }

  /** Two hashes share a key exactly when they are the same hash. */
  lemma KeyInjective(a: seq<Byte>, b: seq<Byte>)
    ensures Key(a) == Key(b) <==> a == b
  {
    if Key(a) == Key(b) {
      assert Hex(a) == Key(a)[2..] == Key(b)[2..] == Hex(b);
      HexInjective(a, b);
    }
  }
}
