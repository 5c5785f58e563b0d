/** The SMS body GSMSendBlock builds from a block of binary data: the format
 *  "%s %x\n%s\n%s\n" filled with the file name, the block number and up to
 *  two lines of hex text, and a parser that reads such a body back.
 */
module Blocks {
  import opened Bytes
  import opened Hex

  /** A body whose length reaches this is refused ("Header too long"). */
  const BODY_LIMIT: int := 180
  /** Bytes of data on the first hex line. */
  const LINE_BYTES: int := 32

  /** The second data line: the bytes past the first 32, or empty. */
  function SecondLine(block: seq<byte>): seq<byte>
  {
    if |block| > LINE_BYTES then Enc(block[LINE_BYTES..]) else []
  }

  /** The text GSMSendBlock formats (and measures with snprintf). */
  function BlockBody(name: seq<byte>, number: nat, block: seq<byte>): seq<byte>
  {
    name + [SPACE] + HexNumber(number) + [LF]
      + Enc(block[..Min(|block|, LINE_BYTES)]) + [LF]
      + SecondLine(block) + [LF]
  }

  /** The length snprintf reports: name, number, four separators and two
   *  characters per data byte. */
  lemma BlockBodyLength(name: seq<byte>, number: nat, block: seq<byte>)
    ensures |BlockBody(name, number, block)| == |name| + |HexNumber(number)| + 2 * |block| + 4
  {
  }

  /** The body is a C string whenever the name is. */
  lemma BlockBodyIsCString(name: seq<byte>, number: nat, block: seq<byte>)
    requires CString(name)
    ensures CString(BlockBody(name, number, block))
  {
    var body := BlockBody(name, number, block);
    var k := Min(|block|, LINE_BYTES);
    EncDigits(block[..k]);
    ParseHexNumber(number);
    if |block| > LINE_BYTES { EncDigits(block[LINE_BYTES..]); }
    forall i | 0 <= i < |body| ensures body[i] != NUL {
      NotDigitsAt(name, number, block, i);
    }
  }

  /** Every character past the name is a separator or a hex digit. */
  lemma NotDigitsAt(name: seq<byte>, number: nat, block: seq<byte>, i: nat)
    requires i < |BlockBody(name, number, block)|
    ensures var c := BlockBody(name, number, block)[i];
      i < |name| ==> c == name[i]
    ensures var c := BlockBody(name, number, block)[i];
      i >= |name| ==> c == SPACE || c == LF || IsHexDigit(c)
  {
    var k := Min(|block|, LINE_BYTES);
    EncDigits(block[..k]);
    ParseHexNumber(number);
    if |block| > LINE_BYTES { EncDigits(block[LINE_BYTES..]); }
  }

  /** What a body says: the file name, the block number and the data. */
  datatype Parsed = Parsed(name: seq<byte>, number: nat, data: seq<byte>)

  /** Split at the first `c`. */
  function SplitFirst(s: seq<byte>, c: byte): Option<(seq<byte>, seq<byte>)>
  {
    if c in s then var k := FirstIndex(s, c); Some((s[..k], s[k + 1..])) else None
  }

  /** Index of the last occurrence of `c`. */
  function LastIndex(s: seq<byte>, c: byte): (k: nat)
    requires c in s
    ensures k < |s| && s[k] == c && c !in s[k + 1..]
  {
    if s[|s| - 1] == c then |s| - 1
    else
      assert c in s[..|s| - 1] by {
        var j :| 0 <= j < |s| && s[j] == c;
        assert s[..|s| - 1][j] == c;
      }
      var k := LastIndex(s[..|s| - 1], c);
      assert s[k + 1..] == s[..|s| - 1][k + 1..] + [s[|s| - 1]];
      k
  }

  /** Split at the last `c`, so that the left part may itself hold `c`. */
  function SplitLast(s: seq<byte>, c: byte): Option<(seq<byte>, seq<byte>)>
  {
    if c in s then var k := LastIndex(s, c); Some((s[..k], s[k + 1..])) else None
  }

  lemma SplitFirstOf(a: seq<byte>, c: byte, b: seq<byte>)
    requires c !in a
    ensures SplitFirst(a + [c] + b, c) == Some((a, b))
  {
    var s := a + [c] + b;
    assert s[|a|] == c && s[..|a|] == a;
    FirstIndexUnique(s, c, |a|);
    assert s[|a| + 1..] == b;
  }

  lemma {:induction false} SplitLastOf(a: seq<byte>, c: byte, b: seq<byte>)
    requires c !in b
    ensures SplitLast(a + [c] + b, c) == Some((a, b))
    decreases |b|
  {
    var s := a + [c] + b;
    assert s[|a|] == c;
    if b == [] {
      assert s[..|s| - 1] == a && s[|s|..] == [];
    } else {
      assert s[|s| - 1] == b[|b| - 1];
      assert s[..|s| - 1] == a + [c] + b[..|b| - 1];
      assert b == b[..|b| - 1] + [b[|b| - 1]];
      SplitLastOf(a, c, b[..|b| - 1]);
      var k := LastIndex(s, c);
      assert k == LastIndex(s[..|s| - 1], c);
      assert k == |a|;
      assert s[..|a|] == a && s[|a| + 1..] == b;
    }
  }

  /** The three newline-terminated lines of a body, if that is its shape. */
  function Lines(body: seq<byte>): Option<(seq<byte>, seq<byte>, seq<byte>)>
  {
    match SplitFirst(body, LF)
    case None => None
    case Some((header, r1)) =>
      match SplitFirst(r1, LF)
      case None => None
      case Some((l1, r2)) =>
        match SplitFirst(r2, LF)
        case None => None
        case Some((l2, r3)) => if r3 != [] then None else Some((header, l1, l2))
  }

  /** The name and the block number of a header line: the number follows
   *  the last space. */
  function Header(header: seq<byte>): Option<(seq<byte>, nat)>
  {
    match SplitLast(header, SPACE)
    case None => None
    case Some((name, num)) =>
      match ParseHex(num)
      case None => None
      case Some(n) => Some((name, n))
  }

  /** Read a body back: a header, then two lines of hex text. */
  function ParseBody(body: seq<byte>): Option<Parsed>
  {
    match Lines(body)
    case None => None
    case Some((header, l1, l2)) =>
      match (Header(header), Dec(l1), Dec(l2))
      case (Some((name, n)), Some(d1), Some(d2)) => Some(Parsed(name, n, d1 + d2))
      case _ => None
  }

  lemma HexTextHasNoSeparator(t: seq<byte>)
    requires forall i :: 0 <= i < |t| ==> IsHexDigit(t[i])
    ensures LF !in t && SPACE !in t
  {
    forall i | 0 <= i < |t| ensures t[i] != LF && t[i] != SPACE { }
  }

  lemma LinesOf(header: seq<byte>, l1: seq<byte>, l2: seq<byte>)
    requires LF !in header && LF !in l1 && LF !in l2
    ensures Lines(header + [LF] + l1 + [LF] + l2 + [LF]) == Some((header, l1, l2))
  {
    var body := header + [LF] + l1 + [LF] + l2 + [LF];
    assert body == header + [LF] + (l1 + [LF] + (l2 + [LF] + []));
    SplitFirstOf(header, LF, l1 + [LF] + (l2 + [LF] + []));
    SplitFirstOf(l1, LF, l2 + [LF] + []);
    SplitFirstOf(l2, LF, []);
  }

  lemma HeaderOf(name: seq<byte>, number: nat)
    ensures Header(name + [SPACE] + HexNumber(number)) == Some((name, number))
  {
    ParseHexNumber(number);
    HexTextHasNoSeparator(HexNumber(number));
    SplitLastOf(name, SPACE, HexNumber(number));
  }

  /** The two data lines are single lines that decode to the first 32 bytes
   *  and to the rest. */
  lemma DataLines(block: seq<byte>)
    ensures var k := Min(|block|, LINE_BYTES);
      LF !in Enc(block[..k]) && LF !in SecondLine(block) &&
      Dec(Enc(block[..k])) == Some(block[..k]) && Dec(SecondLine(block)) == Some(block[k..])
  {
    var k := Min(|block|, LINE_BYTES);
    EncDigits(block[..k]);
    HexTextHasNoSeparator(Enc(block[..k]));
    DecEnc(block[..k]);
    if |block| > LINE_BYTES {
      EncDigits(block[LINE_BYTES..]);
      HexTextHasNoSeparator(SecondLine(block));
      DecEnc(block[LINE_BYTES..]);
    } else {
      assert block[k..] == [];
    }
  }

  /** Any body GSMSendBlock builds reads back as its name, number and data,
   *  as long as the name is a single line. */
  lemma ParseBlockBody(name: seq<byte>, number: nat, block: seq<byte>)
    requires LF !in name
    ensures ParseBody(BlockBody(name, number, block)) == Some(Parsed(name, number, block))
  {
    var k := Min(|block|, LINE_BYTES);
    var hex := HexNumber(number);
    ParseHexNumber(number);
    HexTextHasNoSeparator(hex);
    DataLines(block);
    var header := name + [SPACE] + hex;
    assert LF !in header;
    HeaderOf(name, number);
    assert block[..k] + block[k..] == block;
    ParseBodyOf(header, Enc(block[..k]), SecondLine(block), name, number, block[..k], block[k..], block);
  }

  /** ParseBody on three lines whose parts each parse. */
  lemma ParseBodyOf(header: seq<byte>, l1: seq<byte>, l2: seq<byte>,
                    name: seq<byte>, n: nat, d1: seq<byte>, d2: seq<byte>, data: seq<byte>)
    requires LF !in header && LF !in l1 && LF !in l2
    requires Header(header) == Some((name, n)) && Dec(l1) == Some(d1) && Dec(l2) == Some(d2)
    requires d1 + d2 == data
    ensures ParseBody(header + [LF] + l1 + [LF] + l2 + [LF]) == Some(Parsed(name, n, data))
  {
    LinesOf(header, l1, l2);
  }
}
