/** Bytes, C strings and the few C library routines the modem code relies on
 *  (strlen, strncmp, strcmp, strchr, strtol), all over byte sequences.
 */
module Bytes {

  /** An octet on the serial line or in a C `char` buffer. */
  type byte = b: int | 0 <= b < 256

  datatype Option<T> = None | Some(value: T)

  const NUL: byte := 0
  const LF: byte := 10
  const CR: byte := 13
  const SPACE: byte := 32
  const COMMA: byte := 44

  /** `long` on the 32-bit target the program was written for. */
  const LONG_MAX: int := 0x7fff_ffff
  const LONG_MIN: int := -0x8000_0000

  function Min(a: int, b: int): int { if a <= b then a else b }

  /** The bytes of an ASCII literal. */
  function Ascii(s: string): (r: seq<byte>)
    requires forall i :: 0 <= i < |s| ==> s[i] as int < 256
    ensures |r| == |s|
  {
    seq(|s|, i requires 0 <= i < |s| => s[i] as int)
  }

  /** What a `const char *` can hold: bytes with no terminator inside. */
  predicate CString(s: seq<byte>) { NUL !in s }

  /** The C string stored at the head of a buffer: everything before the first
   *  NUL, or the whole buffer when it holds none (what strlen measures). */
  function CView(buf: seq<byte>): (r: seq<byte>)
    ensures |r| <= |buf| && r == buf[..|r|]
    ensures CString(r)
    ensures |r| < |buf| ==> buf[|r|] == NUL
  {
    if buf == [] || buf[0] == NUL then [] else [buf[0]] + CView(buf[1..])
  }

  /** The first `n` characters of a C string (all of it when it is shorter). */
  function Take(s: seq<byte>, n: nat): seq<byte> { if |s| <= n then s else s[..n] }

  /** `strncmp(a, b, n) == 0` for C strings `a` and `b`. */
  predicate StrnEqual(a: seq<byte>, b: seq<byte>, n: nat) { Take(a, n) == Take(b, n) }

  /** Index of the first occurrence of `c` (what `strchr` points at). */
  function FirstIndex(s: seq<byte>, c: byte): (k: nat)
    requires c in s
    ensures k < |s| && s[k] == c && c !in s[..k]
  {
    if s[0] == c then 0 else 1 + FirstIndex(s[1..], c)
  }

  /** A position holding `c` with no `c` before it is where strchr points. */
  lemma {:induction false} FirstIndexUnique(s: seq<byte>, c: byte, k: nat)
    requires k < |s| && s[k] == c && c !in s[..k]
    ensures FirstIndex(s, c) == k
  {
    if k > 0 {
      assert s[..k][0] == s[0];
      assert s[1..][..k - 1] == s[..k][1..];
      FirstIndexUnique(s[1..], c, k - 1);
    }
  }

  predicate IsDigit(b: byte) { 48 <= b <= 57 }

  /** The characters `isspace` accepts in the C locale. */
  predicate IsSpace(b: byte) { b == SPACE || 9 <= b <= 13 }

  function SkipSpace(s: seq<byte>): (r: seq<byte>)
    ensures |r| <= |s| && r == s[|s| - |r|..]
    ensures r == [] || !IsSpace(r[0])
  {
    if s != [] && IsSpace(s[0]) then SkipSpace(s[1..]) else s
  }

  /** The longest prefix made of decimal digits. */
  function Digits(s: seq<byte>): (d: seq<byte>)
    ensures |d| <= |s| && d == s[..|d|]
    ensures forall i :: 0 <= i < |d| ==> IsDigit(d[i])
    ensures |d| < |s| ==> !IsDigit(s[|d|])
  {
    if s != [] && IsDigit(s[0]) then [s[0]] + Digits(s[1..]) else []
  }

  /** The value of a string of decimal digits, most significant first. */
  function DigitsValue(d: seq<byte>): nat
    requires forall i :: 0 <= i < |d| ==> IsDigit(d[i])
  {
    if d == [] then 0 else assert IsDigit(d[|d| - 1]); 10 * DigitsValue(d[..|d| - 1]) + (d[|d| - 1] as int - 48)
  }

  function Clamp(v: int): int { if v > LONG_MAX then LONG_MAX else if v < LONG_MIN then LONG_MIN else v }

  /** `strtol(s, NULL, 10)`: leading white space, an optional sign, then decimal
   *  digits; no digits gives 0 and an out-of-range value saturates. */
  function Strtol(s: seq<byte>): (r: int)
    ensures LONG_MIN <= r <= LONG_MAX
  {
    var t := SkipSpace(s);
    var neg := t != [] && t[0] == 45;
    var u := if t != [] && (t[0] == 43 || t[0] == 45) then t[1..] else t;
    var v: int := DigitsValue(Digits(u));
    Clamp(if neg then -v else v)
  }

  /** The canonical decimal spelling of a number (`"%d"`). */
  function Decimal(n: nat): (r: seq<byte>)
    ensures r != [] && forall i :: 0 <= i < |r| ==> IsDigit(r[i])
  {
    if n < 10 then [48 + n] else Decimal(n / 10) + [48 + n % 10]
  }

  lemma {:induction false} DigitsValueDecimal(n: nat)
    ensures DigitsValue(Decimal(n)) == n
  {
    if n >= 10 {
      var d := Decimal(n);
      assert d[..|d| - 1] == Decimal(n / 10);
      DigitsValueDecimal(n / 10);
    }
  }

  lemma {:induction false} DigitsOfDigitString(d: seq<byte>, rest: seq<byte>)
    requires forall i :: 0 <= i < |d| ==> IsDigit(d[i])
    requires rest == [] || !IsDigit(rest[0])
    ensures Digits(d + rest) == d
  {
    if d != [] {
      assert (d + rest)[1..] == d[1..] + rest;
      DigitsOfDigitString(d[1..], rest);
    }
  }

  /** strtol reads back what "%d" wrote, up to the first non-digit that follows. */
  lemma StrtolDecimal(n: nat, rest: seq<byte>)
    requires n <= LONG_MAX
    requires rest == [] || !IsDigit(rest[0])
    ensures Strtol(Decimal(n) + rest) == n
  {
    var s := Decimal(n) + rest;
    assert s[0] == Decimal(n)[0];
    assert SkipSpace(s) == s;
    DigitsOfDigitString(Decimal(n), rest);
    DigitsValueDecimal(n);
  }

  /** Appending more text never changes the length of a C string view that
   *  already ended inside the buffer. */
  lemma CViewOfTerminated(s: seq<byte>, rest: seq<byte>)
    ensures CView(s + [NUL] + rest) == CView(s)
  {
    if s != [] && s[0] != NUL {
      assert (s + [NUL] + rest)[1..] == s[1..] + [NUL] + rest;
      CViewOfTerminated(s[1..], rest);
    }
  }

  /** A string without NUL is its own C view. */
  lemma CViewOfCString(s: seq<byte>)
    requires CString(s)
    ensures CView(s) == s
  {
    if s != [] { CViewOfCString(s[1..]); }
  }
}
