/** What each operation promises whatever the modem sends: the values it can
 *  return, what it has written when it fails, and how the code as written
 *  and the corrected code differ.
 */
module Outcomes {
  import opened Bytes
  import opened Serial
  import opened Framing
  import opened Replies
  import opened Hex
  import opened Blocks
  import opened Protocol
  import opened Gsm

  /** GSMCheckSignal returns -1, 0, 1 or 2. It sends AT+CSQ only once the
   *  registration check has passed, and reports a weak signal (2) only
   *  for a registered modem. */
  lemma CheckSignalOutcome(input: seq<Event>, debug: bool)
    ensures CheckSignalSpec(input, debug).ret in {-1, 0, 1, 2}
    ensures var s := CheckSignalSpec(input, debug); var c := CregStep(input);
      !debug && c.ret != 0 ==> s.ret == c.ret && s.rest == c.rest && s.sent == CREG_MESSAGE
    ensures var s := CheckSignalSpec(input, debug); var c := CregStep(input);
      !debug && c.ret == 0 ==> s.ret == CsqStep(c.rest).ret && s.sent == CREG_MESSAGE + CSQ_MESSAGE
    ensures var s := CheckSignalSpec(input, debug);
      s.ret == 2 ==> !debug && CregStep(input).ret == 0
  {
    var c := CregStep(input);
    var q := QuerySpec(input, CREG_MESSAGE);
    CregRejectsMalformed(q.line.ret, Text(q.line));
  }

  /** The prompt check succeeds exactly when, after the echo and one more
   *  line, the next two characters are "> ". */
  lemma PromptVerdict(input: seq<Event>, cmd: seq<byte>)
    ensures var r1 := AfterLine(CommandSpec(input, cmd).rest); var p := PromptSpec(input, cmd);
      (p.ret == 0 <==> |r1| >= 2 && r1[0] == PROMPT_GT && r1[1] == SPACE) &&
      (p.ret == 0 || p.ret == 1) && p.sent == cmd
  {
    var r1 := AfterLine(CommandSpec(input, cmd).rest);
    if |r1| >= 2 && r1[0] == PROMPT_GT && r1[1] == SPACE {
      assert r1[1] != TIMEOUT;
      assert Run(r1) >= 2 by {
        assert r1[1..][1..] == r1[2..];
      }
    }
  }

  /** GSMSendMessage returns 0 or 1. The text goes out only after the
   *  prompt, followed by Ctrl-Z; when it fails, at most the AT+CMGS
   *  command was written, or nothing at all for a text over 170 characters
   *  or a number over 80. */
  lemma SendMessageOutcome(input: seq<Event>, number: seq<byte>, msg: seq<byte>, debug: bool)
    ensures SendMessageSpec(input, number, msg, debug).ret in {0, 1}
    ensures var s := SendMessageSpec(input, number, msg, debug);
      |msg| > MAX_MESSAGE || |number| > MAX_NUMBER ==> s.ret == 1 && s.rest == input && s.sent == []
    ensures var s := SendMessageSpec(input, number, msg, debug);
      s.ret != 0 ==> s.sent == [] || s.sent == CmgsCommand(number)
    ensures var s := SendMessageSpec(input, number, msg, debug);
      var r1 := AfterLine(CommandSpec(input, CmgsCommand(number)).rest);
      s.ret == 0 && !debug ==>
        |msg| <= MAX_MESSAGE && |number| <= MAX_NUMBER &&
        s.sent == CmgsCommand(number) + msg + [CTRL_Z] &&
        |r1| >= 2 && r1[0] == PROMPT_GT && r1[1] == SPACE
  {
    PromptVerdict(input, CmgsCommand(number));
  }

  /** GSMSendBlock refuses every body over 170 characters (GSMSendMessage's
   *  limit; its own limit of 180 never decides), and otherwise sends the
   *  body as one message. What it sends reads back as the file name, the
   *  block number and the data. */
  lemma SendBlockOutcome(input: seq<Event>, number: seq<byte>, name: seq<byte>, n: nat,
                         block: seq<byte>, debug: bool)
    ensures var s := SendBlockSpec(input, number, name, n, block, debug);
      |name| + |HexNumber(n)| + 2 * |block| + 4 > MAX_MESSAGE ==> s.ret == 1 && s.rest == input && s.sent == []
    ensures var s := SendBlockSpec(input, number, name, n, block, debug);
      var m := SendMessageSpec(input, number, BlockBody(name, n, block), debug);
      |name| + |HexNumber(n)| + 2 * |block| + 4 <= MAX_MESSAGE ==> s.ret == m.ret && s.rest == m.rest && s.sent == m.sent
    ensures var s := SendBlockSpec(input, number, name, n, block, debug);
      s.ret == 0 && !debug ==>
        (exists body :: s.sent == CmgsCommand(number) + body + [CTRL_Z] && |body| <= MAX_MESSAGE &&
           (LF !in name ==> ParseBody(body) == Some(Parsed(name, n, block))))
  {
    var body := BlockBody(name, n, block);
    BlockBodyLength(name, n, block);
    SendMessageOutcome(input, number, body, debug);
    var s := SendBlockSpec(input, number, name, n, block, debug);
    if s.ret == 0 && !debug {
      if LF !in name { ParseBlockBody(name, n, block); }
      assert s.sent == CmgsCommand(number) + body + [CTRL_Z] && |body| <= MAX_MESSAGE;
    }
  }

  /** Every block a file loop sends is accepted (a reference definition
   *  of a fully delivered file). */
  predicate Delivered(input: seq<Event>, number: seq<byte>, name: seq<byte>, rest: seq<byte>, n: nat, debug: bool)
    decreases |rest|
  {
    var len := Min(CHUNK, |rest|);
    len == 0 ||
      var s := SendBlockSpec(input, number, name, n + 1, rest[..len], debug);
      s.ret == 0 && Delivered(s.rest, number, name, rest[len..], n + 1, debug)
  }

  /** Corrected, GSMSendFile's loop returns 0 exactly when the whole file
   *  was read without error and every block was accepted. As written, it
   *  returns 1 only for a read error after every block was accepted: a
   *  refused block gives 0. Both write the same bytes and use the same
   *  events. */
  lemma {:induction false} FileLoopOutcome(input: seq<Event>, number: seq<byte>, name: seq<byte>,
                                           rest: seq<byte>, failing: bool, n: nat, debug: bool)
    ensures var a := FileLoop(input, number, name, rest, failing, n, debug, 0);
      var b := FileLoop(input, number, name, rest, failing, n, debug, 1);
      a.rest == b.rest && a.sent == b.sent
    ensures var b := FileLoop(input, number, name, rest, failing, n, debug, 1);
      b.ret in {0, 1} && (b.ret == 0 <==> !failing && Delivered(input, number, name, rest, n, debug))
    ensures var a := FileLoop(input, number, name, rest, failing, n, debug, 0);
      a.ret in {0, 1} && (a.ret == 1 <==> failing && Delivered(input, number, name, rest, n, debug))
    decreases |rest|
  {
    var len := Min(CHUNK, |rest|);
    if len > 0 {
      var s := SendBlockSpec(input, number, name, n + 1, rest[..len], debug);
      if s.ret == 0 {
        FileLoopOutcome(s.rest, number, name, rest[len..], failing, n + 1, debug);
        if len < CHUNK {
          assert rest[len..] == [];
        }
      }
    }
  }

  /** GSMSendFile: 1 when the file cannot be opened; otherwise as its loop. */
  lemma SendFileOutcome(input: seq<Event>, number: seq<byte>, name: seq<byte>, file: Option<Source>, debug: bool)
    ensures var s := SendFileSpec(input, number, name, file, debug);
      s.ret in {0, 1} && (file.None? ==> s.ret == 1 && s.rest == input && s.sent == [])
    ensures var s := SendFileSpec(input, number, name, file, debug);
      s.ret == 0 <==> file.Some? && !file.value.failing && Delivered(input, number, name, file.value.data, 0, debug)
    ensures var a := SendFileAsWritten(input, number, name, file, debug);
      var s := SendFileSpec(input, number, name, file, debug);
      a.rest == s.rest && a.sent == s.sent && (s.ret == 0 ==> a.ret == 0)
  {
    if file.Some? {
      FileLoopOutcome(input, number, name, file.value.data, file.value.failing, 0, debug);
    }
  }

  /** A name of 170 characters makes even a one-byte block too long to
   *  send, and the code as written still reports the file as sent. */
  lemma SendFileRefusedBlock(input: seq<Event>, number: seq<byte>, debug: bool)
    ensures var name := seq(170, _ => 65);
      var file := Some(Source([0], false));
      var a := SendFileAsWritten(input, number, name, file, debug);
      var s := SendFileSpec(input, number, name, file, debug);
      a.ret == 0 && s.ret == 1 && a.rest == input && a.sent == []
  {
    var name: seq<byte> := seq(170, _ => 65);
    BlockBodyLength(name, 1, [0]);
    assert HexNumber(1) == [49];
    assert [0][..1] == [0];
  }

  /** A check that succeeds (0) or fails outright (-1) ends the loop at once
   *  with that check's outcome. */
  lemma WaitStopsEarly(input: seq<Event>, left: int, res: int)
    requires left > 0 && CheckSignalSpec(input, false).ret < 1
    ensures var w := WaitLoop(input, left, res); var c := CheckSignalSpec(input, false);
      w.checks == 1 && w.step.ret == c.ret && w.step.rest == c.rest && w.step.sent == c.sent
  {
  }

  /** With one attempt left the loop returns what that check returns,
   *  whatever the earlier result was. */
  lemma WaitLastAttempt(input: seq<Event>, res: int)
    ensures var w := WaitLoop(input, 1, res); var c := CheckSignalSpec(input, false);
      w.checks == 1 && w.step.ret == c.ret && w.step.rest == c.rest && w.step.sent == c.sent
  {
    var c := CheckSignalSpec(input, false);
    if c.ret >= 1 {
      var w := WaitLoop(c.rest, 0, c.ret);
      assert w.step.sent == [] && w.step.rest == c.rest;
      assert c.sent + [] == c.sent;
    }
  }

  /** A 130-byte file goes out as blocks 1, 2 and 3 of 64, 64 and 2 bytes,
   *  each sent on the events the previous one left. */
  lemma FileOfThreeBlocks(input: seq<Event>, number: seq<byte>, name: seq<byte>, data: seq<byte>, debug: bool)
    requires |data| == 130
    ensures var s1 := SendBlockSpec(input, number, name, 1, data[..64], debug);
      var s2 := SendBlockSpec(s1.rest, number, name, 2, data[64..128], debug);
      var s3 := SendBlockSpec(s2.rest, number, name, 3, data[128..], debug);
      var f := SendFileSpec(input, number, name, Some(Source(data, false)), debug);
      s1.ret == 0 && s2.ret == 0 ==>
        f.ret == (if s3.ret == 0 then 0 else 1) && f.rest == s3.rest && f.sent == s1.sent + s2.sent + s3.sent
  {
    var s1 := SendBlockSpec(input, number, name, 1, data[..64], debug);
    var s2 := SendBlockSpec(s1.rest, number, name, 2, data[64..128], debug);
    if s1.ret == 0 && s2.ret == 0 {
      FileTwoChunks(input, number, name, data, debug);
      FileLastBlock(s2.rest, number, name, data[128..], 2, debug, 1);
      var s3 := SendBlockSpec(s2.rest, number, name, 3, data[128..], debug);
      AppendAssoc(s1.sent, s2.sent, s3.sent);
    }
  }

  /** The first two, full chunks of a 130-byte file, both accepted. */
  lemma FileTwoChunks(input: seq<Event>, number: seq<byte>, name: seq<byte>, data: seq<byte>, debug: bool)
    requires |data| == 130
    ensures var s1 := SendBlockSpec(input, number, name, 1, data[..64], debug);
      var s2 := SendBlockSpec(s1.rest, number, name, 2, data[64..128], debug);
      var f := FileLoop(input, number, name, data, false, 0, debug, 1);
      var h := FileLoop(s2.rest, number, name, data[128..], false, 2, debug, 1);
      s1.ret == 0 && s2.ret == 0 ==> f == After(s1.sent, After(s2.sent, h))
  {
    var s1 := SendBlockSpec(input, number, name, 1, data[..64], debug);
    FileFullBlock(input, number, name, data, false, 0, debug, 1);
    if s1.ret == 0 {
      SliceSplit(data, 64, 64);
      FileFullBlock(s1.rest, number, name, data[64..], false, 1, debug, 1);
    }
  }

  /** When block 2 of a 130-byte file is refused, block 3 is never
   *  attempted; the corrected code then returns 1, the code as written 0,
   *  and both have sent the same. */
  lemma FileSecondBlockRefused(input: seq<Event>, number: seq<byte>, name: seq<byte>, data: seq<byte>, debug: bool)
    requires |data| == 130
    ensures var s1 := SendBlockSpec(input, number, name, 1, data[..64], debug);
      var s2 := SendBlockSpec(s1.rest, number, name, 2, data[64..128], debug);
      var f := SendFileSpec(input, number, name, Some(Source(data, false)), debug);
      var a := SendFileAsWritten(input, number, name, Some(Source(data, false)), debug);
      s1.ret == 0 && s2.ret != 0 ==>
        f.ret == 1 && a.ret == 0 && f.rest == s2.rest && f.sent == s1.sent + s2.sent && a.sent == f.sent
  {
    FileRefusedAt2(input, number, name, data, debug, 1);
    FileRefusedAt2(input, number, name, data, debug, 0);
  }

  /** A refused block 2 ends the loop with `onFail`. */
  lemma FileRefusedAt2(input: seq<Event>, number: seq<byte>, name: seq<byte>, data: seq<byte>, debug: bool,
                       onFail: int)
    requires |data| == 130
    ensures var s1 := SendBlockSpec(input, number, name, 1, data[..64], debug);
      var s2 := SendBlockSpec(s1.rest, number, name, 2, data[64..128], debug);
      var f := FileLoop(input, number, name, data, false, 0, debug, onFail);
      s1.ret == 0 && s2.ret != 0 ==> f.ret == onFail && f.rest == s2.rest && f.sent == s1.sent + s2.sent
  {
    var s1 := SendBlockSpec(input, number, name, 1, data[..64], debug);
    FileFullBlock(input, number, name, data, false, 0, debug, onFail);
    if s1.ret == 0 {
      SliceSplit(data, 64, 64);
      FileFullBlock(s1.rest, number, name, data[64..], false, 1, debug, onFail);
    }
  }

  /** One full chunk of GSMSendFile's loop. */
  lemma FileFullBlock(input: seq<Event>, number: seq<byte>, name: seq<byte>, rest: seq<byte>,
                      failing: bool, n: nat, debug: bool, onFail: int)
    requires |rest| >= CHUNK
    ensures var s := SendBlockSpec(input, number, name, n + 1, rest[..CHUNK], debug);
      var f := FileLoop(input, number, name, rest, failing, n, debug, onFail);
      s.ret != 0 ==> f.ret == onFail && f.rest == s.rest && f.sent == s.sent
    ensures var s := SendBlockSpec(input, number, name, n + 1, rest[..CHUNK], debug);
      var f := FileLoop(input, number, name, rest, failing, n, debug, onFail);
      var g := FileLoop(s.rest, number, name, rest[CHUNK..], failing, n + 1, debug, onFail);
      s.ret == 0 ==> f == After(s.sent, g)
  {
  }

  /** The last, short chunk of a file read without error. */
  lemma FileLastBlock(input: seq<Event>, number: seq<byte>, name: seq<byte>, rest: seq<byte>,
                      n: nat, debug: bool, onFail: int)
    requires 0 < |rest| < CHUNK
    ensures var s := SendBlockSpec(input, number, name, n + 1, rest, debug);
      var f := FileLoop(input, number, name, rest, false, n, debug, onFail);
      f.ret == (if s.ret == 0 then 0 else onFail) && f.rest == s.rest && f.sent == s.sent
  {
    assert rest[..|rest|] == rest;
  }

  /** After a failed read GSMCheckGPRS as written reports the modem
   *  attached when its uninitialised buffer happens to hold an old
   *  "+CGREG: 0,1"; the corrected check reports -1. */
  lemma CheckGprsSilentModem(rest: seq<byte>)
    requires |rest| == LINE_BUFFER - 12
    ensures CheckGprsAsWritten([], STALE_CGREG + [NUL] + rest) == Returns(0)
    ensures CheckGprsSpec([]).ret == -1
  {
    var buf := STALE_CGREG + [NUL] + rest;
    assert Overlay(buf, Frame([], LINE_BUFFER)) == buf;
    GprsTimeoutPassesGuard(rest);
  }

  /** Whenever the reply is long enough and holds a comma, the code as
   *  written and the corrected check agree, whatever the buffer held. */
  lemma CheckGprsAgrees(input: seq<Event>, buf: seq<byte>)
    requires |buf| == LINE_BUFFER
    requires var q := QuerySpec(input, CGREG_MESSAGE); q.line.ret >= CGREG_MIN_LEN && COMMA in Text(q.line)
    ensures CheckGprsAsWritten(input, buf) == Returns(CheckGprsSpec(input).ret)
  {
    var q := QuerySpec(input, CGREG_MESSAGE);
    var afterCmd := CommandSpec(input, CGREG_MESSAGE).rest;
    var l1 := ReadInto(afterCmd, buf);
    var l2 := ReadInto(l1.rest, l1.buf);
    assert l2.count == q.line.ret;
    assert l2.buf == Overlay(l1.buf, q.line);
    TextOfLine(l1.buf, q.line);
    var line := Text(q.line);
    var k := FirstIndex(line, COMMA);
    assert k + 1 < |l2.buf|;
    assert k + 1 < |line| ==> l2.buf[k + 1] == line[k + 1];
  }
}
