/** The modem operations over an open serial port, written as the C code
 *  runs them and proved to act as the Protocol module says.
 */
module Gsm {
  import opened Bytes
  import opened Serial
  import opened Framing
  import opened Replies
  import opened Hex
  import opened Blocks
  import opened Protocol

  /** get_line: read a CR LF terminated line into `buffer`, which ends up
   *  holding it with a NUL in place of the CR. */
  method GetLine(sp: SerialPort, buffer: array<byte>, buflen: int) returns (count: int)
    requires 1 <= buflen <= buffer.Length
    modifies sp`input, buffer
    ensures var f := Frame(old(sp.input), buflen);
      count == f.ret && sp.input == old(sp.input)[f.used..] && buffer[..] == Overlay(old(buffer[..]), f)
  {
    ghost var in0 := sp.input;
    ghost var b0 := buffer[..];
    ghost var used := 0;
    var state := 0;
    count := 0;
    while true
      invariant 0 <= count < buflen && (state == 0 || state == 1)
      invariant used <= |in0| && sp.input == in0[used..]
      invariant Frame(in0, buflen) == Skipped(FrameFrom(sp.input, buflen, state == 1, buffer[..count]), used)
      invariant buffer[..] == Overlay(b0, Framed(0, 0, buffer[..count], state == 1))
      decreases |sp.input|
    {
      ghost var line := buffer[..count];
      ghost var input := sp.input;
      var c := sp.GetByteTimeout();
      if c == -1 {
        // timeout
        EndOfLine(in0, input, used, buflen, state == 1, line, b0);
        return -1;
      } else if c == CR as int {
        if state != 0 {
          EndOfLine(in0, input, used, buflen, state == 1, line, b0);
          return -1;
        }
        buffer[count] := NUL;
        state := 1;
        FramerTakes(in0, input, used, buflen, false, line, true, line);
        OverlayNul(b0, line);
        assert buffer[..count] == line;
      } else if c == LF as int {
        if state != 1 {
          EndOfLine(in0, input, used, buflen, state == 1, line, b0);
          return -1;
        }
        EndOfLine(in0, input, used, buflen, state == 1, line, b0);
        return count;
      } else {
        if state != 0 {
          EndOfLine(in0, input, used, buflen, state == 1, line, b0);
          return -1;
        }
        buffer[count] := c;
        count := count + 1;
        if count < buflen {
          FramerTakes(in0, input, used, buflen, false, line, false, line + [c as byte]);
        }
        OverlayChar(b0, line, c);
        assert buffer[..count] == line + [c as byte];
        if count == buflen {
          Overflow(in0, input, used, buflen, line, b0);
          return -1;
        }
      }
      used := used + 1;
      assert sp.input == in0[used..] by { assert input[1..] == in0[used..]; }
    }
  }

  /** The framer stops at this event: what it returns then. */
  lemma EndOfLine(in0: seq<Event>, input: seq<Event>, used: nat, buflen: int, afterCr: bool, line: seq<byte>,
                  b0: seq<byte>)
    requires |line| < buflen <= |b0| && used <= |in0| && input == in0[used..]
    requires Frame(in0, buflen) == Skipped(FrameFrom(input, buflen, afterCr, line), used)
    requires input == [] || input[0] == TIMEOUT || input[0] == LF || afterCr
    ensures var f := Frame(in0, buflen);
      f.stored == line && f.nul == afterCr &&
      f.used == used + (if input == [] then 0 else 1) &&
      f.ret == (if input != [] && input[0] == LF && afterCr then |line| else -1) &&
      Overlay(b0, f) == Overlay(b0, Framed(0, 0, line, afterCr))
  {
  }

  /** The framer takes a CR, or a character that still fits, and goes on. */
  lemma FramerTakes(in0: seq<Event>, input: seq<Event>, used: nat, buflen: int, afterCr: bool,
                    line: seq<byte>, afterCr': bool, line': seq<byte>)
    requires |line| < buflen && |line'| < buflen && input != [] && !afterCr
    requires Frame(in0, buflen) == Skipped(FrameFrom(input, buflen, afterCr, line), used)
    requires (input[0] == CR && afterCr' && line' == line) ||
      (input[0] != TIMEOUT && input[0] != CR && input[0] != LF && !afterCr' && line' == line + [input[0] as byte])
    ensures Frame(in0, buflen) == Skipped(FrameFrom(input[1..], buflen, afterCr', line'), used + 1)
  {
  }

  /** The framer stops on a full buffer. */
  lemma Overflow(in0: seq<Event>, input: seq<Event>, used: nat, buflen: int, line: seq<byte>,
                 b0: seq<byte>)
    requires |line| + 1 == buflen <= |b0| && used <= |in0| && input == in0[used..]
    requires input != [] && input[0] != TIMEOUT && input[0] != CR && input[0] != LF
    requires Frame(in0, buflen) == Skipped(FrameFrom(input, buflen, false, line), used)
    ensures Frame(in0, buflen) == Framed(-1, used + 1, line + [input[0] as byte], false)
    ensures Overlay(b0, Frame(in0, buflen)) == Overlay(b0, Framed(0, 0, line + [input[0] as byte], false))
  {
  }

  lemma OverlayNul(b0: seq<byte>, line: seq<byte>)
    requires |line| < |b0|
    ensures Overlay(b0, Framed(0, 0, line, false))[|line| := NUL] == Overlay(b0, Framed(0, 0, line, true))
  {
  }

  lemma OverlayChar(b0: seq<byte>, line: seq<byte>, c: byte)
    requires |line| < |b0|
    ensures Overlay(b0, Framed(0, 0, line, false))[|line| := c] == Overlay(b0, Framed(0, 0, line + [c], false))
  {
  }
  /** Once get_line has returned a line, the buffer reads as that line. */
  lemma TextOfLine(buf: seq<byte>, f: Framed)
    requires |f.stored| + (if f.nul then 1 else 0) <= |buf|
    requires f.nul
    ensures CView(Overlay(buf, f)) == Text(f)
  {
    CViewOfTerminated(f.stored, buf[|f.stored| + 1..]);
  }

  /** The state of gsm.c: the port each call is handed, and the static
   *  `debug_mode` flag that GSMDebugMode sets. */
  class Modem {
    const sp: SerialPort
    var debugMode: bool

    constructor (port: SerialPort)
      ensures sp == port && !debugMode
    {
      sp := port;
      debugMode := false;
    }

    /** GSMDebugMode: from now on most operations return 0 without talking
     *  to the modem. */
    method DebugMode() returns (r: int)
      modifies this`debugMode
      ensures debugMode && r == 0
    {
      debugMode := true;
      r := 0;
    }

    /** GSMEchoOn: send ATE1, read three lines into `linebuf` and look for OK
     *  at the head of whatever the buffer then holds. */
    method EchoOn(linebuf: array<byte>) returns (r: int)
      requires linebuf.Length == LINE_BUFFER
      modifies sp, linebuf
      ensures var e := EchoOnSpec(old(sp.input), old(linebuf[..]), debugMode);
        r == e.step.ret && sp.input == e.step.rest && sp.output == old(sp.output) + e.step.sent &&
        linebuf[..] == e.buf
    {
      if debugMode {
        return 0;
      }
      sp.PutString(E1_MESSAGE);
      var first := GetLine(sp, linebuf, LINE_BUFFER);   // blank, or the echoed command
      var second := GetLine(sp, linebuf, LINE_BUFFER);  // blank
      var count := GetLine(sp, linebuf, LINE_BUFFER);   // OK
      sp.FlushChannel();
      if !StrnEqual(CView(linebuf[..]), OK, 2) {
        return 1;
      }
      return 0;
    }

    /** GSMSendCommand: write `msg` and expect it echoed back. */
    method SendCommand(msg: seq<byte>) returns (r: int)
      requires CString(msg)
      modifies sp
      ensures var s := CommandSpec(old(sp.input), msg);
        r == s.ret && sp.input == s.rest && sp.output == old(sp.output) + s.sent
    {
      var linebuf := new byte[LINE_BUFFER];
      sp.PutString(msg);
      ghost var b0 := linebuf[..];
      ghost var f := Frame(sp.input, LINE_BUFFER);
      var count := GetLine(sp, linebuf, LINE_BUFFER);
      if count <= 0 {
        return 1;
      }
      TextOfLine(b0, f);
      var line := CView(linebuf[..]);
      if !StrnEqual(line, msg, |line|) {
        return 1;
      }
      return 0;
    }

    /** GSMCheckSignal: registration (AT+CREG?), then signal quality (AT+CSQ). */
    method CheckSignal() returns (r: int)
      modifies sp
      ensures var s := CheckSignalSpec(old(sp.input), debugMode);
        r == s.ret && sp.input == s.rest && sp.output == old(sp.output) + s.sent
    {
      if debugMode {
        return 0;
      }
      ghost var out0 := sp.output;
      var linebuf := new byte[LINE_BUFFER];
      var status := CheckRegistration(linebuf);
      if status != 0 {
        return status;
      }
      r := CheckQuality(linebuf);
      AppendAssoc(out0, CREG_MESSAGE, CSQ_MESSAGE);
    }

    /** The first half of GSMCheckSignal: -1 for a bad reply, 1 when not
     *  registered, 0 to go on. */
    method CheckRegistration(linebuf: array<byte>) returns (status: int)
      requires linebuf.Length == LINE_BUFFER
      modifies sp, linebuf
      ensures var s := CregStep(old(sp.input));
        status == s.ret && sp.input == s.rest && sp.output == old(sp.output) + s.sent
    {
      ghost var q := QuerySpec(sp.input, CREG_MESSAGE);
      var line := Query(CREG_MESSAGE, linebuf);
      status := CregVerdict(line.0, line.1);
      ReplyAgrees(q, line);
      sp.FlushChannel();
    }

    /** The second half: -1 for a bad reply, 2 for a weak signal, else 0. */
    method CheckQuality(linebuf: array<byte>) returns (r: int)
      requires linebuf.Length == LINE_BUFFER
      modifies sp, linebuf
      ensures var s := CsqStep(old(sp.input));
        r == s.ret && sp.input == s.rest && sp.output == old(sp.output) + s.sent
    {
      ghost var q := QuerySpec(sp.input, CSQ_MESSAGE);
      var line := Query(CSQ_MESSAGE, linebuf);
      r := CsqVerdict(line.0, line.1);
      ReplyAgrees(q, line);
      sp.FlushChannel();
    }

    /** GSMWaitSignal: up to `retries` checks, stopping at the first that
     *  succeeds or fails outright. */
    method WaitSignal(retries: int) returns (res: int)
      modifies sp
      ensures var w := WaitSpec(old(sp.input), retries, debugMode);
        res == w.step.ret && sp.input == w.step.rest && sp.output == old(sp.output) + w.step.sent
    {
      if debugMode {
        return 0;
      }
      ghost var goal := WaitSpec(sp.input, retries, debugMode).step;
      ghost var sent: seq<byte> := [];
      ghost var out0 := sp.output;
      ghost var left := retries;
      res := 1;
      var i := 0;
      while i < retries
        invariant sp.output == out0 + sent
        invariant left == retries - i
        invariant Continues(goal, sent, WaitLoop(sp.input, left, res).step)
        decreases retries - i
      {
        ghost var in1 := sp.input;
        ghost var r0 := res;
        ghost var out1 := sp.output;
        res := CheckSignal();
        ghost var now := sp.output[|out1|..];
        assert sp.output == out1 + now;
        left := left - 1;
        WaitAdvance(goal, sent, in1, r0, left, res, sp.input, now);
        AppendAssoc(out0, sent, now);
        if res < 1 {
          // success or outright failure
          return res;
        }
        sent := sent + now;
        i := i + 1;
      }
      WaitEnd(goal, sent, sp.input, left, res);
    }

    /** GSMSetSMSMode: AT+CMGF=1, answered by OK or not. */
    method SetSmsMode() returns (r: int)
      modifies sp
      ensures var s := SetSmsModeSpec(old(sp.input), debugMode);
        r == s.ret && sp.input == s.rest && sp.output == old(sp.output) + s.sent
    {
      if debugMode {
        return 0;
      }
      ghost var q := QuerySpec(sp.input, CMGF_MESSAGE);
      var linebuf := new byte[LINE_BUFFER];
      var line := Query(CMGF_MESSAGE, linebuf);
      ReplyAgrees(q, line);
      r := ReplyVerdict(line.0, line.1);
    }

    /** GSMAttachGPRS: AT+CGATT=1, answered by OK or not. */
    method AttachGprs() returns (r: int)
      modifies sp
      ensures var s := AttachGprsSpec(old(sp.input));
        r == s.ret && sp.input == s.rest && sp.output == old(sp.output) + s.sent
    {
      ghost var q := QuerySpec(sp.input, CGATT_MESSAGE);
      var linebuf := new byte[LINE_BUFFER];
      var line := Query(CGATT_MESSAGE, linebuf);
      ReplyAgrees(q, line);
      r := ReplyVerdict(line.0, line.1);
    }

    /** GSMCheckGPRS, with the length guard compared as signed numbers and
     *  a missing comma reported as an error. */
    method CheckGprs() returns (r: int)
      modifies sp
      ensures var s := CheckGprsSpec(old(sp.input));
        r == s.ret && sp.input == s.rest && sp.output == old(sp.output) + s.sent
    {
      ghost var q := QuerySpec(sp.input, CGREG_MESSAGE);
      var linebuf := new byte[LINE_BUFFER];
      var line := Query(CGREG_MESSAGE, linebuf);
      ReplyAgrees(q, line);
      r := GprsVerdict(line.0, line.1);
    }

    /** GSMSendMessage: AT+CMGS with the number, the "> " prompt, then the
     *  text and Ctrl-Z; the modem's echo of the text is read and dropped. */
    method SendMessage(number: seq<byte>, msg: seq<byte>) returns (r: int)
      requires CString(number) && CString(msg)
      modifies sp
      ensures var s := SendMessageSpec(old(sp.input), number, msg, debugMode);
        r == s.ret && sp.input == s.rest && sp.output == old(sp.output) + s.sent
    {
      if |msg| > MAX_MESSAGE {
        return 1;
      }
      if |number| > MAX_NUMBER {
        return 1;
      }
      if debugMode {
        return 0;
      }
      r := Transmit(CmgsCommand(number), msg);
    }

    /** GSMSendMessage past its checks on the lengths and the debug flag. */
    method Transmit(cmd: seq<byte>, msg: seq<byte>) returns (r: int)
      requires CString(cmd) && CString(msg)
      modifies sp
      ensures var s := TransmitSpec(old(sp.input), cmd, msg);
        r == s.ret && sp.input == s.rest && sp.output == old(sp.output) + s.sent
    {
      ghost var out0 := sp.output;
      var prompt := AwaitPrompt(cmd);
      if prompt != 0 {
        return 1;
      }
      sp.PutString(msg);
      sp.PutByte(CTRL_Z);
      AppendAssoc(out0 + cmd, msg, [CTRL_Z]);
      AppendAssoc(out0, cmd, msg + [CTRL_Z]);
      ReadBack();
      return 0;
    }

    /** The end of GSMSendMessage: read back up to 256 characters of echoed
     *  text, then one more line. */
    method ReadBack()
      modifies sp
      ensures sp.input == AfterLine(AfterBytes(old(sp.input), LINE_BUFFER)) && sp.output == old(sp.output)
    {
      var buf := new byte[LINE_BUFFER];
      var count := sp.GetBytesTimeout(buf, LINE_BUFFER);
      var last := GetLine(sp, buf, LINE_BUFFER);
    }

    /** The first half of GSMSendMessage: the command, the blank line after
     *  its echo, and the prompt. */
    method AwaitPrompt(cmd: seq<byte>) returns (r: int)
      requires CString(cmd)
      modifies sp
      ensures var s := PromptSpec(old(sp.input), cmd);
        r == s.ret && sp.input == s.rest && sp.output == old(sp.output) + s.sent
    {
      var echo := SendCommand(cmd);
      var buf := new byte[LINE_BUFFER];
      var blank := GetLine(sp, buf, LINE_BUFFER);
      var count := sp.GetBytesTimeout(buf, 2);
      if count != 2 {
        return 1;
      }
      if buf[0] != PROMPT_GT || buf[1] != SPACE {
        return 1;
      }
      return 0;
    }

    /** GSMSendBlock: encode up to 32 bytes on each of two lines under a
     *  header of name and block number, refuse a body of 180 characters or
     *  more, and send the rest as one message. */
    method SendBlock(number: seq<byte>, name: seq<byte>, blockNumber: int, block: seq<byte>) returns (r: int)
      requires CString(number) && CString(name) && blockNumber > 0 && |block| > 0
      modifies sp
      ensures var s := SendBlockSpec(old(sp.input), number, name, blockNumber, block, debugMode);
        r == s.ret && sp.input == s.rest && sp.output == old(sp.output) + s.sent
    {
      var sizeOne := if |block| >= LINE_BYTES then LINE_BYTES else |block|;
      var lineOne := EncodeBytes(block[..sizeOne]);
      var lineTwo: seq<byte> := [];
      if |block| > LINE_BYTES {
        lineTwo := EncodeBytes(block[LINE_BYTES..]);
      }
      var msg := name + [SPACE] + HexNumber(blockNumber) + [LF] + lineOne + [LF] + lineTwo + [LF];
      assert msg == BlockBody(name, blockNumber, block);
      if |msg| >= BODY_LIMIT {
        return 1;
      }
      BlockBodyIsCString(name, blockNumber, block);
      r := SendMessage(number, msg);
    }

    /** GSMSendFile: send the file 64 bytes at a time as blocks 1, 2, ...
     *  `file` is what fopen finds under `name` (None when it cannot be
     *  opened); each fread takes up to 64 bytes and a short read sets the
     *  end-of-file or, on a failing file, the error indicator. A refused
     *  block makes it return 1. */
    method SendFile(number: seq<byte>, name: seq<byte>, file: Option<Source>) returns (ret: int)
      requires CString(number) && CString(name)
      modifies sp
      ensures var s := SendFileSpec(old(sp.input), number, name, file, debugMode);
        ret == s.ret && sp.input == s.rest && sp.output == old(sp.output) + s.sent
    {
      if file.None? {
        return 1;
      }
      var data := file.value.data;
      var failing := file.value.failing;
      ghost var goal := SendFileSpec(sp.input, number, name, file, debugMode);
      ghost var out0 := sp.output;
      ghost var sent: seq<byte> := [];
      var pos := 0;
      ghost var left := data;
      var eof, err := false, false;
      var done := false;
      ret := 0;
      var n := 0;
      while !done
        invariant 0 <= pos <= |data| && n >= 0 && left == data[pos..]
        invariant err ==> failing
        invariant eof ==> done
        invariant done ==> ret == goal.ret && sp.input == goal.rest && sp.output == out0 + goal.sent
        invariant !done ==> sp.output == out0 + sent
        invariant !done ==> Continues(goal, sent, FileLoop(sp.input, number, name, left, failing, n, debugMode, 1))
        decreases |data| - pos + (if done then 0 else 1)
      {
        // fread(buffer, 1, 64, fp)
        var len := if |data| - pos < CHUNK then |data| - pos else CHUNK;
        var chunk := data[pos..pos + len];
        ghost var rest := left;
        SliceSplit(data, pos, len);
        pos := pos + len;
        left := rest[len..];
        if len < CHUNK {
          if failing {
            err := true;
          } else {
            eof := true;
          }
        }
        if len == 0 {
          FileEnd(goal, sent, sp.input, number, name, rest, failing, n, debugMode);
          if err {
            ret := 1;
          } else {
            ret := 0;
          }
          done := true;
          continue;
        }
        ghost var prev := n;
        n := n + 1;
        ghost var out1 := sp.output;
        ghost var in1 := sp.input;
        var b := SendBlock(number, name, n, chunk);
        ghost var now := sp.output[|out1|..];
        assert sp.output == out1 + now;
        FileAdvance(goal, sent, in1, number, name, rest, len, failing, prev, n, debugMode, b, sp.input, now);
        AppendAssoc(out0, sent, now);
        if b != 0 {
          ret := 1;
          done := true;
        } else if eof {
          ret := 0;
          done := true;
        }
        sent := sent + now;
      }
    }

    /** GSMWakeUp: send an empty line and drain the reply. */
    method WakeUp() returns (r: int)
      modifies sp
      ensures var s := WakeUpSpec(old(sp.input));
        r == s.ret && sp.input == s.rest && sp.output == old(sp.output) + s.sent
    {
      sp.PutString(WAKE_UP_MESSAGE);
      sp.FlushChannel();
      return 0;
    }

    /** Send a query, skip the line after the echo and read the reply into
     *  `linebuf`: its count and, when it is a line, its text. */
    method Query(cmd: seq<byte>, linebuf: array<byte>) returns (line: (int, seq<byte>))
      requires CString(cmd) && linebuf.Length == LINE_BUFFER
      modifies sp, linebuf
      ensures var q := QuerySpec(old(sp.input), cmd);
        line.0 == q.line.ret && (line.0 >= 0 ==> line.1 == Text(q.line)) &&
        sp.input == q.rest && sp.output == old(sp.output) + cmd
    {
      var echo := SendCommand(cmd);
      var blank := GetLine(sp, linebuf, LINE_BUFFER);
      ghost var b0 := linebuf[..];
      ghost var f := Frame(sp.input, LINE_BUFFER);
      var count := GetLine(sp, linebuf, LINE_BUFFER);
      if count >= 0 {
        TextOfLine(b0, f);
      }
      line := (count, CView(linebuf[..]));
    }
  }

  /** A classifier sees the same verdict in the count and text a query
   *  returned as in the reply line itself: a failed read is refused on its
   *  count alone. */
  lemma ReplyAgrees(q: Reply, line: (int, seq<byte>))
    requires line.0 == q.line.ret && (line.0 >= 0 ==> line.1 == Text(q.line))
    ensures CregVerdict(line.0, line.1) == CregVerdict(q.line.ret, Text(q.line))
    ensures CsqVerdict(line.0, line.1) == CsqVerdict(q.line.ret, Text(q.line))
    ensures ReplyVerdict(line.0, line.1) == ReplyVerdict(q.line.ret, Text(q.line))
    ensures GprsVerdict(line.0, line.1) == GprsVerdict(q.line.ret, Text(q.line))
  {
  }


  lemma AppendAssoc(a: seq<byte>, b: seq<byte>, c: seq<byte>)
    ensures a + b + c == a + (b + c)
  {
  }

  /** `goal` is what is left of an exchange that has written `sent` so far
   *  and will go on as `s`. */
  predicate Continues(goal: Step, sent: seq<byte>, s: Step)
  {
    goal.ret == s.ret && goal.rest == s.rest && goal.sent == sent + s.sent
  }

  /** One round of GSMWaitSignal's loop, on the function that specifies it:
   *  a check that returns `ret`, leaves `rest` and writes `now`, with `next`
   *  attempts to go after it. */
  lemma WaitAdvance(goal: Step, sent: seq<byte>, input: seq<Event>, res: int,
                    next: int, ret: int, rest: seq<Event>, now: seq<byte>)
    requires next >= 0 && Continues(goal, sent, WaitLoop(input, next + 1, res).step)
    requires var c := CheckSignalSpec(input, false); ret == c.ret && rest == c.rest && now == c.sent
    ensures ret < 1 ==> goal.ret == ret && goal.rest == rest && goal.sent == sent + now
    ensures ret >= 1 ==> Continues(goal, sent + now, WaitLoop(rest, next, ret).step)
  {
    if ret >= 1 {
      AppendAssoc(sent, now, WaitLoop(rest, next, ret).step.sent);
    }
  }

  /** GSMWaitSignal's loop once every attempt is used up: the last result. */
  lemma WaitEnd(goal: Step, sent: seq<byte>, input: seq<Event>, left: int, res: int)
    requires left <= 0 && Continues(goal, sent, WaitLoop(input, left, res).step)
    ensures goal.ret == res && goal.rest == input && goal.sent == sent
  {
    assert sent + [] == sent;
  }

  /** GSMSendFile's loop at the end of the file: 1 if the file failed, else 0. */
  lemma FileEnd(goal: Step, sent: seq<byte>, input: seq<Event>, number: seq<byte>, name: seq<byte>,
                rest: seq<byte>, failing: bool, n: nat, debug: bool)
    requires rest == [] && Continues(goal, sent, FileLoop(input, number, name, rest, failing, n, debug, 1))
    ensures goal.ret == (if failing then 1 else 0) && goal.rest == input && goal.sent == sent
  {
    assert sent + [] == sent;
  }

  /** One block of GSMSendFile's loop, on the function that specifies it:
   *  after `prev` blocks, block `next` of `len` bytes returned `ret`,
   *  left `after` and wrote `now`. */
  lemma FileAdvance(goal: Step, sent: seq<byte>, input: seq<Event>, number: seq<byte>, name: seq<byte>,
                    rest: seq<byte>, len: int, failing: bool, prev: nat, next: nat, debug: bool,
                    ret: int, after: seq<Event>, now: seq<byte>)
    requires 0 < len == Min(CHUNK, |rest|) && next == prev + 1
    requires Continues(goal, sent, FileLoop(input, number, name, rest, failing, prev, debug, 1))
    requires var s := SendBlockSpec(input, number, name, next, rest[..len], debug);
      ret == s.ret && after == s.rest && now == s.sent
    ensures ret != 0 ==> goal.ret == 1 && goal.rest == after && goal.sent == sent + now
    ensures ret == 0 && len < CHUNK && !failing ==>
      goal.ret == 0 && goal.rest == after && goal.sent == sent + now
    ensures ret == 0 && (len == CHUNK || failing) ==>
      Continues(goal, sent + now, FileLoop(after, number, name, rest[len..], failing, next, debug, 1))
  {
    if ret == 0 && (len == CHUNK || failing) {
      AppendAssoc(sent, now, FileLoop(after, number, name, rest[len..], failing, next, debug, 1).sent);
    }
  }

  /** The chunk fread takes and what is left after it, as slices of what
   *  was left before. */
  lemma SliceSplit(data: seq<byte>, pos: nat, len: nat)
    requires pos + len <= |data|
    ensures data[pos..pos + len] == data[pos..][..len] && data[pos + len..] == data[pos..][len..]
  {
  }
}
