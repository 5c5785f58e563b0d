/** Lowercase hexadecimal text: the per-byte "%2.2x" encoding of GSMEncodeBytes
 *  and the "%x" rendering of block numbers, each with its decoder.
 */
module Hex {
  import opened Bytes

  /** The lowercase digit for a nibble. */
  function HexDigit(v: int): (d: byte)
    requires 0 <= v < 16
    ensures (48 <= d <= 57) || (97 <= d <= 102)
  {
    if v < 10 then 48 + v else 87 + v
  }

  /** The nibble a lowercase hex digit stands for. */
  function DigitValue(d: byte): Option<int>
  {
    if 48 <= d <= 57 then Some(d - 48)
    else if 97 <= d <= 102 then Some(d - 87)
    else None
  }

  predicate IsHexDigit(d: byte) { DigitValue(d).Some? }

  lemma DigitValueOfHexDigit(v: int)
    requires 0 <= v < 16
    ensures DigitValue(HexDigit(v)) == Some(v)
  {
  }

  /** Two lowercase hex digits per byte, high nibble first, no separators. */
  function Enc(data: seq<byte>): (t: seq<byte>)
    ensures |t| == 2 * |data|
  {
    if data == [] then [] else [HexDigit(data[0] / 16), HexDigit(data[0] % 16)] + Enc(data[1..])
  }

  /** Byte `i` sits at positions 2i (high nibble) and 2i+1 (low nibble). */
  lemma {:induction false} EncAt(data: seq<byte>, i: nat)
    requires i < |data|
    ensures Enc(data)[2 * i] == HexDigit(data[i] / 16)
    ensures Enc(data)[2 * i + 1] == HexDigit(data[i] % 16)
  {
    if i > 0 { EncAt(data[1..], i - 1); }
  }

  lemma {:induction false} EncAppend(a: seq<byte>, b: seq<byte>)
    ensures Enc(a + b) == Enc(a) + Enc(b)
  {
    if a != [] {
      assert (a + b)[1..] == a[1..] + b;
      EncAppend(a[1..], b);
    } else {
      assert a + b == b;
    }
  }

  /** Pairwise decoding of hex text; None unless it is pairs of digits. */
  function Dec(t: seq<byte>): Option<seq<byte>>
  {
    if t == [] then Some([])
    else if |t| == 1 then None
    else match (DigitValue(t[0]), DigitValue(t[1]), Dec(t[2..]))
      case (Some(hi), Some(lo), Some(rest)) => Some([(16 * hi + lo) as byte] + rest)
      case _ => None
  }

  /** Decoding the encoding gives back the bytes. */
  lemma {:induction false} DecEnc(data: seq<byte>)
    ensures Dec(Enc(data)) == Some(data)
  {
    if data != [] {
      var t := Enc(data);
      DigitValueOfHexDigit(data[0] / 16);
      DigitValueOfHexDigit(data[0] % 16);
      assert t[0] == HexDigit(data[0] / 16) && t[1] == HexDigit(data[0] % 16);
      assert t[2..] == Enc(data[1..]);
      DecEnc(data[1..]);
      assert [(16 * (data[0] / 16) + data[0] % 16) as byte] + data[1..] == data;
    }
  }

  /** The encoding uses only lowercase hex digits (so neither space nor newline). */
  lemma {:induction false} EncDigits(data: seq<byte>)
    ensures forall i :: 0 <= i < |Enc(data)| ==> IsHexDigit(Enc(data)[i])
  {
    if data != [] {
      DigitValueOfHexDigit(data[0] / 16);
      DigitValueOfHexDigit(data[0] % 16);
      EncDigits(data[1..]);
    }
  }

  /** "%x": lowercase hex, no leading zeros. */
  function HexNumber(n: nat): (t: seq<byte>)
    ensures t != []
  {
    if n < 16 then [HexDigit(n)] else HexNumber(n / 16) + [HexDigit(n % 16)]
  }

  /** The value of a string of hex digits, most significant first. */
  function ParseHex(t: seq<byte>): Option<nat>
  {
    if t == [] then None
    else match (DigitValue(t[|t| - 1]), if |t| == 1 then Some(0) else ParseHex(t[..|t| - 1]))
      case (Some(d), Some(high)) => Some(16 * high + d)
      case _ => None
  }

  /** A header's block number reads back as the number written. */
  lemma {:induction false} ParseHexNumber(n: nat)
    ensures ParseHex(HexNumber(n)) == Some(n)
    ensures forall i :: 0 <= i < |HexNumber(n)| ==> IsHexDigit(HexNumber(n)[i])
  {
    DigitValueOfHexDigit(n % 16);
    if n >= 16 {
      var t := HexNumber(n);
      assert t[..|t| - 1] == HexNumber(n / 16);
      ParseHexNumber(n / 16);
    }
  }

  /** GSMEncodeBytes: fill a zeroed buffer of 2*len+1 characters two digits at
   *  a time (each "%2.2x" also writes a NUL after its digits); the text is
   *  the buffer up to that final NUL. */
  method EncodeBytes(data: seq<byte>) returns (text: seq<byte>)
    ensures |text| == 2 * |data|
    ensures forall i :: 0 <= i < |data| ==>
      text[2 * i] == HexDigit(data[i] / 16) && text[2 * i + 1] == HexDigit(data[i] % 16)
    ensures text == Enc(data)
    ensures Dec(text) == Some(data)
  {
    var len := |data|;
    var buf := new byte[2 * len + 1](_ => NUL);
    var i := 0;
    while i < len
      invariant 0 <= i <= len
      invariant buf[..2 * i] == Enc(data[..i])
      invariant buf[2 * i] == NUL
    {
      buf[2 * i] := HexDigit(data[i] / 16);
      buf[2 * i + 1] := HexDigit(data[i] % 16);
      buf[2 * i + 2] := NUL;
      assert data[..i + 1] == data[..i] + [data[i]];
      EncAppend(data[..i], [data[i]]);
      assert buf[..2 * (i + 1)] == buf[..2 * i] + [buf[2 * i], buf[2 * i + 1]];
      i := i + 1;
    }
    text := buf[..2 * len];
    assert data[..len] == data;
    forall k | 0 <= k < len
      ensures text[2 * k] == HexDigit(data[k] / 16) && text[2 * k + 1] == HexDigit(data[k] % 16)
    {
      EncAt(data, k);
    }
    DecEnc(data);
  }
}
