/** The CR LF line framer of the modem code (`get_line`), as a function of the
 *  incoming events, and what it promises about complete and malformed lines.
 */
module Framing {
  import opened Bytes
  import opened Serial

  /** What one call of the framer did: its return value, how many events it
   *  consumed, the characters it stored at the head of the buffer, and
   *  whether it then wrote a NUL right after them (it does so on CR). */
  datatype Framed = Framed(ret: int, used: nat, stored: seq<byte>, nul: bool)

  /** A line's characters: data bytes that are neither CR nor LF. */
  predicate LineChars(s: seq<byte>)
  {
    forall i :: 0 <= i < |s| ==> s[i] != CR && s[i] != LF
  }

  function Consumed(f: Framed): Framed { f.(used := f.used + 1) }

  /** The framer continued from a state: `afterCr` is state 1 (a CR has been
   *  seen) and `line` is what is stored so far. */
  function FrameFrom(input: seq<Event>, buflen: int, afterCr: bool, line: seq<byte>): (f: Framed)
    requires |line| < buflen
    ensures f.used <= |input|
    ensures line <= f.stored && |f.stored| <= buflen
    ensures f.nul ==> |f.stored| < buflen
    ensures f.ret == -1 || (f.ret == |f.stored| && f.nul && f.used >= 1)
    ensures afterCr ==> f.stored == line && f.nul
    decreases |input|
  {
    if input == [] || input[0] == TIMEOUT then
      // no byte within the window
      Framed(-1, if input == [] then 0 else 1, line, afterCr)
    else if input[0] == CR then
      if afterCr then Framed(-1, 1, line, true)
      else Consumed(FrameFrom(input[1..], buflen, true, line))
    else if input[0] == LF then
      if afterCr then Framed(|line|, 1, line, true)
      else Framed(-1, 1, line, false)
    else if afterCr then
      // a normal character after CR
      Framed(-1, 1, line, true)
    else if |line| + 1 == buflen then
      // the buffer is full: overflow
      Framed(-1, 1, line + [input[0] as byte], false)
    else
      Consumed(FrameFrom(input[1..], buflen, false, line + [input[0] as byte]))
  }

  /** `get_line(sp, buffer, buflen)` from its initial state. */
  function Frame(input: seq<Event>, buflen: int): Framed
    requires buflen >= 1
  {
    FrameFrom(input, buflen, false, [])
  }

  /** The buffer after the framer, given what it held before. */
  function Overlay(buf: seq<byte>, f: Framed): (r: seq<byte>)
    requires |f.stored| + (if f.nul then 1 else 0) <= |buf|
    ensures |r| == |buf|
  {
    var k := |f.stored|;
    if f.nul then f.stored + [NUL] + buf[k + 1..] else f.stored + buf[k..]
  }

  /** A clean line followed by CR LF is returned whole: its length comes back,
   *  the buffer holds it followed by a NUL, and exactly its events are used. */
  lemma {:induction false} FrameLine(s: seq<byte>, rest: seq<Event>, buflen: int)
    requires LineChars(s) && |s| < buflen
    ensures Frame(s + [CR, LF] + rest, buflen) == Framed(|s|, |s| + 2, s, true)
  {
    FrameLineFrom([], s, rest, buflen);
  }

  lemma {:induction false} FrameLineFrom(line: seq<byte>, s: seq<byte>, rest: seq<Event>, buflen: int)
    requires LineChars(s) && |line| + |s| < buflen
    ensures FrameFrom(s + [CR, LF] + rest, buflen, false, line) == Framed(|line| + |s|, |s| + 2, line + s, true)
    decreases |s|
  {
    var input := s + [CR, LF] + rest;
    if s == [] {
      assert input[1..] == [LF] + rest;
    } else {
      assert input[0] == s[0];
      assert input[1..] == s[1..] + [CR, LF] + rest;
      assert line + [s[0]] + s[1..] == line + s;
      FrameLineFrom(line + [s[0]], s[1..], rest, buflen);
    }
  }

  /** The converse: a success always is such a line. A success is never a
   *  truncated line, and it is at most buflen-1 characters long. */
  lemma {:induction false} FrameSuccess(input: seq<Event>, buflen: int)
    requires buflen >= 1
    ensures var f := Frame(input, buflen);
      f.ret >= 0 ==>
        f.ret == |f.stored| < buflen && f.nul && LineChars(f.stored) &&
        f.used == f.ret + 2 && input[..f.used] == f.stored + [CR, LF]
  {
    FrameSuccessFrom(input, buflen, false, []);
  }

  /** What a success of the framer continued from (`afterCr`, `line`) is:
   *  the line grown by clean characters, then LF (and CR before it unless
   *  CR had already been seen). */
  predicate SuccessShape(input: seq<Event>, buflen: int, afterCr: bool, line: seq<byte>, f: Framed)
  {
    f.ret >= 0 ==>
      f.ret == |f.stored| < buflen && LineChars(f.stored) &&
      |line| <= |f.stored| && f.stored == line + f.stored[|line|..] &&
      f.used == |f.stored| - |line| + (if afterCr then 1 else 2) &&
      f.used <= |input| &&
      input[..f.used] == f.stored[|line|..] + (if afterCr then [LF] else [CR, LF])
  }

  lemma {:induction false} FrameSuccessFrom(input: seq<Event>, buflen: int, afterCr: bool, line: seq<byte>)
    requires |line| < buflen && LineChars(line)
    ensures SuccessShape(input, buflen, afterCr, line, FrameFrom(input, buflen, afterCr, line))
    decreases |input|
  {
    if input != [] && input[0] != TIMEOUT {
      if input[0] == CR && !afterCr {
        FrameSuccessFrom(input[1..], buflen, true, line);
        SuccessAfterCr(input, buflen, line);
      } else if input[0] == LF {
        assert input[..1] == [LF];
      } else if input[0] != CR && !afterCr && |line| + 1 < buflen {
        var c := input[0] as byte;
        FrameSuccessFrom(input[1..], buflen, false, line + [c]);
        SuccessAfterChar(input, buflen, line);
      }
    }
  }

  /** The recursive step of FrameSuccessFrom on a CR. */
  lemma SuccessAfterCr(input: seq<Event>, buflen: int, line: seq<byte>)
    requires |line| < buflen && input != [] && input[0] == CR
    requires SuccessShape(input[1..], buflen, true, line, FrameFrom(input[1..], buflen, true, line))
    ensures SuccessShape(input, buflen, false, line, FrameFrom(input, buflen, false, line))
  {
    var f := FrameFrom(input, buflen, false, line);
    if f.ret >= 0 {
      assert input[..f.used] == [input[0]] + input[1..][..f.used - 1];
    }
  }

  /** The recursive step of FrameSuccessFrom on a clean character. */
  lemma SuccessAfterChar(input: seq<Event>, buflen: int, line: seq<byte>)
    requires |line| + 1 < buflen && LineChars(line)
    requires input != [] && input[0] != TIMEOUT && input[0] != CR && input[0] != LF
    requires var c := input[0] as byte;
      SuccessShape(input[1..], buflen, false, line + [c], FrameFrom(input[1..], buflen, false, line + [c]))
    ensures SuccessShape(input, buflen, false, line, FrameFrom(input, buflen, false, line))
  {
    var f := FrameFrom(input, buflen, false, line);
    var c := input[0] as byte;
    var g := FrameFrom(input[1..], buflen, false, line + [c]);
    if f.ret >= 0 {
      assert g.stored[|line| + 1..] == f.stored[|line|..][1..];
      assert input[..f.used] == [input[0]] + input[1..][..f.used - 1];
    }
  }

  /** Reading clean characters only appends them to the line. */
  lemma {:induction false} FramePrefix(line: seq<byte>, s: seq<byte>, tail: seq<Event>, buflen: int)
    requires LineChars(s) && |line| + |s| < buflen
    ensures FrameFrom(s + tail, buflen, false, line) == Skipped(FrameFrom(tail, buflen, false, line + s), |s|)
    decreases |s|
  {
    if s == [] {
      assert s + tail == tail && line + s == line;
    } else {
      var input := s + tail;
      assert input[0] == s[0];
      assert input[1..] == s[1..] + tail;
      assert line + [s[0]] + s[1..] == line + s;
      FramePrefix(line + [s[0]], s[1..], tail, buflen);
    }
  }

  function Skipped(f: Framed, n: nat): Framed { f.(used := f.used + n) }

  /** An LF that no CR precedes is a framing error. */
  lemma FrameRejectsBareLf(s: seq<byte>, rest: seq<Event>, buflen: int)
    requires LineChars(s) && |s| < buflen
    ensures Frame(s + [LF] + rest, buflen).ret == -1
  {
    assert s + [LF] + rest == s + ([LF] + rest);
    FramePrefix([], s, [LF] + rest, buflen);
  }

  /** A CR followed by anything but LF is a framing error. */
  lemma FrameRejectsCrWithoutLf(s: seq<byte>, c: Event, rest: seq<Event>, buflen: int)
    requires LineChars(s) && |s| < buflen && c != LF
    ensures Frame(s + [CR, c] + rest, buflen).ret == -1
  {
    assert s + [CR, c] + rest == s + ([CR, c] + rest);
    FramePrefix([], s, [CR, c] + rest, buflen);
    assert ([CR, c] + rest)[1..] == [c] + rest;
  }

  /** A line that reaches the buffer size before any CR is rejected, never
   *  returned truncated; the buffer then holds its first buflen characters. */
  lemma FrameRejectsOverflow(s: seq<byte>, rest: seq<Event>, buflen: int)
    requires buflen >= 1 && LineChars(s) && |s| >= buflen
    ensures Frame(s + rest, buflen) == Framed(-1, buflen, s[..buflen], false)
  {
    FrameOverflowFrom([], s, rest, buflen);
  }

  lemma {:induction false} FrameOverflowFrom(line: seq<byte>, s: seq<byte>, rest: seq<Event>, buflen: int)
    requires LineChars(s) && |line| < buflen <= |line| + |s|
    ensures FrameFrom(s + rest, buflen, false, line) == Framed(-1, buflen - |line|, line + s[..buflen - |line|], false)
    decreases |s|
  {
    var input := s + rest;
    assert input[0] == s[0];
    if |line| + 1 < buflen {
      assert input[1..] == s[1..] + rest;
      assert line + [s[0]] + s[1..][..buflen - |line| - 1] == line + s[..buflen - |line|];
      FrameOverflowFrom(line + [s[0]], s[1..], rest, buflen);
    } else {
      assert s[..1] == [s[0]];
    }
  }

  /** A timeout, or the end of what the modem sends, before the line is
   *  complete is an error. */
  lemma FrameRejectsTimeout(s: seq<byte>, rest: seq<Event>, buflen: int)
    requires LineChars(s) && |s| < buflen
    ensures Frame(s + [TIMEOUT] + rest, buflen).ret == -1
    ensures Frame(s, buflen).ret == -1
  {
    assert s + [TIMEOUT] + rest == s + ([TIMEOUT] + rest);
    FramePrefix([], s, [TIMEOUT] + rest, buflen);
    assert s == s + [];
    FramePrefix([], s, [], buflen);
  }
}
